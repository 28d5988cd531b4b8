/** The broadcaster's loops as they are written: the retry loop over a ledger context and the
    stuck-nonce scan.  Both are driven by the answers of an environment and refine the
    step machine of one call. */
module SendLoop {
  import opened Text
  import opened Fees
  import opened Ledger
  import opened Worker

  datatype SendAnswer = Taken(hash: nat, journal: Option<Failure>) | Rejected(failure: Failure, accepted: bool)
  datatype CountAnswer = CountIs(nonce: nat) | CountFails(failure: Failure)

  /** What the outside answers during attempt i of the retry loop. */
  datatype Answers = Answers(
    lookup: Option<Failure>, estimate: Estimate, gasPrice: GasPrice, send: SendAnswer,
    record: Option<Failure>, recordedAt: int, refresh: CountAnswer)

  type Environment = nat -> Answers

  /** The ledger context: reads, records and refreshes all go by its current nonce. */
  class NonceLedgerContext {
    const chain: nat
    const from: string
    const ledger: MemoryLedger
    var nonce: nat

    constructor (chain: nat, from: string, ledger: MemoryLedger, nonce: nat)
      ensures this.chain == chain && this.from == from && this.ledger == ledger && this.nonce == nonce
    {
      this.chain, this.from, this.ledger, this.nonce := chain, from, ledger, nonce;
    }

    method FeeResultForAttempt(attempt: nat, estimate: Estimate, gasPrice: GasPrice) returns (r: FeeResult)
      ensures r == ResultForAttempt(estimate, gasPrice, attempt,
          PreviousFees(ledger.entries, Key(chain, from, nonce)), true)
    {
      var previous := ledger.GetTxSubmission(Key(chain, from, nonce));
      var fees := if previous.Some? && previous.value.resolvedAt.None? then Some(previous.value.fees) else None;
      r := ResultForAttempt(estimate, gasPrice, attempt, fees, true);
    }

    method RecordSubmitted(hash: nat, at: int, fees: Snapshot)
      modifies ledger
      ensures ledger.entries == old(ledger.entries)[Key(chain, from, nonce) := Entry(Payload, hash, at, fees, None)]
    {
      ledger.RecordTxSubmission(Key(chain, from, nonce), Entry(Payload, hash, at, fees, None));
    }

    method RefreshNonce(pending: nat)
      modifies this
      ensures nonce == pending
    {
      nonce := pending;
    }
  }

  /** The action the environment answers with at a point of the loop; `attempt` is the
      attempt under way. */
  function Answer(env: Environment, attempt: nat, pc: Pc): Action {
    var e := env(attempt);
    match pc
    case Lookup(_) => if e.lookup.Some? then Fail(e.lookup.value) else LookUp
    case Quote(_, _) => QuoteFees(e.estimate, e.gasPrice)
    case Send(_, _) => if e.send.Taken? then SendPayload(e.send.hash, e.send.journal)
        else SendFails(e.send.failure, e.send.accepted)
    case Record(_, _) => if e.record.Some? then Fail(e.record.value) else RecordPayload(e.recordedAt)
    case Refresh(_) => if e.refresh.CountIs? then Action.RefreshNonce(e.refresh.nonce) else Fail(e.refresh.failure)
    case _ => Wake
  }

  /** The trace consists of the environment's answers, attempt after attempt. */
  ghost predicate Follows(o: Options, w: Worker, l: Entries, env: Environment, attempt: nat, trace: seq<Action>)
    decreases |trace|
  {
    trace == []
    || (var n := Next(o, w, l, trace[0]);
        && trace[0] == Answer(env, attempt, w.pc)
        && n.Some?
        && Follows(o, n.value.worker, n.value.ledger, env, if w.pc.Sleep? then attempt + 1 else attempt, trace[1..]))
  }

  ghost function Attempts(o: Options, w: Worker, l: Entries, attempt: nat, trace: seq<Action>): nat
    requires IsTrace(o, w, l, trace)
    decreases |trace|
  {
    if trace == [] then attempt
    else
      var n := Next(o, w, l, trace[0]).value;
      Attempts(o, n.worker, n.ledger, if w.pc.Sleep? then attempt + 1 else attempt, trace[1..])
  }

  /** A run so far: the answers given, and where they lead. */
  ghost predicate Reached(
    o: Options, w: Worker, l: Entries, env: Environment, trace: seq<Action>, now: Config, attempt: nat)
  {
    && Follows(o, w, l, env, 0, trace)
    && IsTrace(o, w, l, trace)
    && End(o, w, l, trace) == now
    && Attempts(o, w, l, 0, trace) == attempt
  }

  lemma {:induction false} FollowsExtends(
    o: Options, w: Worker, l: Entries, env: Environment, attempt: nat, trace: seq<Action>, a: Action)
    requires Follows(o, w, l, env, attempt, trace) && IsTrace(o, w, l, trace)
    requires var c := End(o, w, l, trace);
             && Next(o, c.worker, c.ledger, a).Some?
             && a == Answer(env, Attempts(o, w, l, attempt, trace), c.worker.pc)
    ensures Follows(o, w, l, env, attempt, trace + [a]) && IsTrace(o, w, l, trace + [a])
    ensures Attempts(o, w, l, attempt, trace + [a])
            == Attempts(o, w, l, attempt, trace) + if End(o, w, l, trace).worker.pc.Sleep? then 1 else 0
    decreases |trace|
  {
    TraceExtends(o, w, l, trace, a);
    if trace == [] {
      assert [a][1..] == [];
    } else {
      var n := Next(o, w, l, trace[0]).value;
      FollowsExtends(o, n.worker, n.ledger, env, if w.pc.Sleep? then attempt + 1 else attempt, trace[1..], a);
      assert (trace + [a])[0] == trace[0] && (trace + [a])[1..] == trace[1..] + [a];
    }
  }

  lemma Advance(o: Options, w: Worker, l: Entries, env: Environment, trace: seq<Action>, now: Config, attempt: nat)
    returns (trace': seq<Action>)
    requires Reached(o, w, l, env, trace, now, attempt)
    requires Next(o, now.worker, now.ledger, Answer(env, attempt, now.worker.pc)).Some?
    ensures Reached(o, w, l, env, trace', Next(o, now.worker, now.ledger, Answer(env, attempt, now.worker.pc)).value,
                    attempt + if now.worker.pc.Sleep? then 1 else 0)
  {
    var a := Answer(env, attempt, now.worker.pc);
    TraceExtends(o, w, l, trace, a);
    FollowsExtends(o, w, l, env, 0, trace, a);
    trace' := trace + [a];
  }

  /** One pass of the loop: it ends the call, or goes on to the next attempt. */
  datatype Pass = Ends(outcome: Outcome) | GoesOn

  datatype PassResult = PassResult(pass: Pass, nonce: nat, ledger: Entries)

  function FeeOf(o: Options, attempt: nat, nonce: nat, l: Entries, e: Answers): FeeResult {
    ResultForAttempt(e.estimate, e.gasPrice, attempt, PreviousFees(l, KeyAt(o, nonce)), true)
  }

  /** The catch clause before anything was broadcast. */
  function Caught(o: Options, attempt: nat, nonce: nat, l: Entries, e: Answers, f: Failure): PassResult {
    if !f.recoverable || attempt >= o.maxAttempts - 1 then PassResult(Ends(Threw(f)), nonce, l)
    else if !f.nonceTooLow then PassResult(GoesOn, nonce, l)
    else if e.refresh.CountFails? then PassResult(Ends(Threw(e.refresh.failure)), nonce, l)
    else PassResult(GoesOn, e.refresh.nonce, l)
  }

  /** After the wallet returned a hash. */
  function Booked(o: Options, nonce: nat, l: Entries, e: Answers, fee: FeeResult): PassResult
    requires e.send.Taken?
  {
    if e.send.journal.Some? then PassResult(Ends(PostBroadcast(e.send.hash, e.send.journal.value)), nonce, l)
    else if fee.snapshot == EMPTY then PassResult(Ends(Hash(e.send.hash)), nonce, l)
    else if e.record.Some? then PassResult(Ends(PostBroadcast(e.send.hash, e.record.value)), nonce, l)
    else
      PassResult(Ends(Hash(e.send.hash)), nonce,
                 l[KeyAt(o, nonce) := Entry(Payload, e.send.hash, e.recordedAt, fee.snapshot, None)])
  }

  function PassOf(o: Options, attempt: nat, nonce: nat, l: Entries, e: Answers): PassResult {
    if e.lookup.Some? then Caught(o, attempt, nonce, l, e, e.lookup.value)
    else if e.send.Rejected? then Caught(o, attempt, nonce, l, e, e.send.failure)
    else Booked(o, nonce, l, e, FeeOf(o, attempt, nonce, l, e))
  }

  /** Where a pass leaves the step machine. */
  function PassTarget(attempt: nat, r: PassResult): Config {
    Config(Worker(if r.pass.Ends? then Done(r.pass.outcome) else Lookup(attempt + 1), r.nonce, r.nonce), r.ledger)
  }

  lemma CaughtRuns(
    o: Options, w: Worker, l: Entries, env: Environment, trace: seq<Action>, attempt: nat, now: Config, f: Failure)
    returns (trace': seq<Action>)
    requires Reached(o, w, l, env, trace, now, attempt)
    requires now.worker == Worker(AfterFailure(o, attempt, f), now.worker.contextNonce, now.worker.contextNonce)
    ensures var r := Caught(o, attempt, now.worker.contextNonce, now.ledger, env(attempt), f);
            Reached(o, w, l, env, trace', PassTarget(attempt, r), if r.pass.Ends? then attempt else attempt + 1)
  {
    trace' := trace;
    if f.recoverable && attempt < o.maxAttempts - 1 {
      var at := now;
      if f.nonceTooLow {
        trace' := Advance(o, w, l, env, trace', at, attempt);
        if env(attempt).refresh.CountFails? {
          return;
        }
        at := Config(Worker(Sleep(attempt), env(attempt).refresh.nonce, env(attempt).refresh.nonce), now.ledger);
      }
      trace' := Advance(o, w, l, env, trace', at, attempt);
    }
  }

  lemma BookedRuns(o: Options, w: Worker, l: Entries, env: Environment, trace: seq<Action>, attempt: nat, now: Config)
    returns (trace': seq<Action>)
    requires Reached(o, w, l, env, trace, now, attempt) && env(attempt).send.Taken?
    requires now.worker.pc.Send? && now.worker.pinnedNonce == now.worker.contextNonce
    ensures Reached(o, w, l, env, trace',
                    PassTarget(attempt, Booked(o, now.worker.contextNonce, now.ledger, env(attempt),
                        now.worker.pc.fee)), attempt)
  {
    var e, fee := env(attempt), now.worker.pc.fee;
    trace' := Advance(o, w, l, env, trace, now, attempt);
    if e.send.journal.None? && fee.snapshot != EMPTY {
      trace' := Advance(o, w, l, env, trace', Config(now.worker.(pc := Record(e.send.hash, fee)), now.ledger), attempt);
    }
  }

  /** One pass of the loop is a stretch of the step machine's run. */
  lemma PassRuns(
    o: Options, w: Worker, l: Entries, env: Environment, trace: seq<Action>, attempt: nat, nonce: nat,
    ledger: Entries)
    returns (trace': seq<Action>)
    requires Reached(o, w, l, env, trace, Config(Worker(Lookup(attempt), nonce, nonce), ledger), attempt)
    ensures var r := PassOf(o, attempt, nonce, ledger, env(attempt));
            Reached(o, w, l, env, trace', PassTarget(attempt, r), if r.pass.Ends? then attempt else attempt + 1)
  {
    var e := env(attempt);
    trace' := Advance(o, w, l, env, trace, Config(Worker(Lookup(attempt), nonce, nonce), ledger), attempt);
    if e.lookup.Some? {
      trace' := CaughtRuns(o, w, l, env, trace', attempt,
                           Config(Worker(AfterFailure(o, attempt, e.lookup.value), nonce, nonce), ledger),
                               e.lookup.value);
      return;
    }
    trace' := Advance(o, w, l, env, trace',
                      Config(Worker(Quote(attempt, PreviousFees(ledger, KeyAt(o, nonce))), nonce, nonce), ledger),
                          attempt);
    var sending := Config(Worker(Send(attempt, FeeOf(o, attempt, nonce, ledger, e)), nonce, nonce), ledger);
    if e.send.Taken? {
      trace' := BookedRuns(o, w, l, env, trace', attempt, sending);
    } else {
      trace' := Advance(o, w, l, env, trace', sending, attempt);
      trace' := CaughtRuns(o, w, l, env, trace', attempt,
                           Config(Worker(AfterFailure(o, attempt, e.send.failure), nonce, nonce), ledger),
                               e.send.failure);
    }
  }

  /** The body of the loop: try, then bookkeeping or catch.  Both nonces stay in step. */
  method TryOnce(o: Options, context: NonceLedgerContext, pinnedNonce: nat, attempt: nat, e: Answers)
    returns (pass: Pass, pinned: nat)
    requires context.chain == o.chain && context.from == o.from && pinnedNonce == context.nonce
    modifies context, context.ledger
    ensures pinned == context.nonce
    ensures PassResult(pass, context.nonce, context.ledger.entries)
            == PassOf(o, attempt, old(context.nonce), old(context.ledger.entries), e)
  {
    pinned := pinnedNonce;
    var failure: Failure;
    if e.lookup.Some? {
      failure := e.lookup.value;
    } else {
      var fee := context.FeeResultForAttempt(attempt, e.estimate, e.gasPrice);
      if e.send.Taken? {
        if e.send.journal.Some? {
          return Ends(PostBroadcast(e.send.hash, e.send.journal.value)), pinned;
        }
        if fee.snapshot != EMPTY {
          if e.record.Some? {
            return Ends(PostBroadcast(e.send.hash, e.record.value)), pinned;
          }
          context.RecordSubmitted(e.send.hash, e.recordedAt, fee.snapshot);
        }
        return Ends(Hash(e.send.hash)), pinned;
      }
      failure := e.send.failure;
    }
    if !failure.recoverable || attempt >= o.maxAttempts - 1 {
      return Ends(Threw(failure)), pinned;
    }
    if failure.nonceTooLow {
      if e.refresh.CountFails? {
        return Ends(Threw(e.refresh.failure)), pinned;
      }
      context.RefreshNonce(e.refresh.nonce);
      pinned := context.nonce;
    }
    pass := GoesOn;
  }

  /** The retry loop.  Whatever the environment answers, the loop ends; its outcome, the
      context's nonce and the ledger are those of the one run of the step machine that the
      environment's answers determine. */
  method SendWithRetry(o: Options, context: NonceLedgerContext, env: Environment)
    returns (outcome: Outcome, ghost trace: seq<Action>)
    requires context.chain == o.chain && context.from == o.from
    modifies context, context.ledger
    ensures exists attempts: nat ::
              Reached(o, StartLoop(o, old(context.nonce)), old(context.ledger.entries), env, trace,
                      Config(Worker(Done(outcome), context.nonce, context.nonce), context.ledger.entries), attempts)
  {
    var pinnedNonce := context.nonce;
    ghost var w, l := StartLoop(o, context.nonce), context.ledger.entries;
    var attempt := 0;
    trace := [];
    while attempt < o.maxAttempts
      invariant attempt >= 0 && pinnedNonce == context.nonce
      invariant Reached(o, w, l, env, trace,
                        Config(Worker(if o.maxAttempts <= 0 then Done(NeverTried) else Lookup(attempt),
                                      context.nonce, pinnedNonce),
                               context.ledger.entries), attempt)
      invariant attempt > 0 ==> attempt < o.maxAttempts
    {
      trace := PassRuns(o, w, l, env, trace, attempt, context.nonce, context.ledger.entries);
      var pass;
      pass, pinnedNonce := TryOnce(o, context, pinnedNonce, attempt, env(attempt));
      if pass.Ends? {
        return pass.outcome, trace;
      }
      attempt := attempt + 1;
    }
    outcome := NeverTried;
  }

  // ---------------------------------------------------------------- stuck-nonce recovery

  /** What the outside answers during one recovery scan; `read` is the failure, if any, of the
      ledger read at a nonce. */
  datatype RecoveryAnswers = RecoveryAnswers(
    counts: Option<Failure>, pending: nat, latest: nat, now: int, read: nat -> Option<Failure>,
    estimate: Estimate, gasPrice: GasPrice, send: SendAnswer, record: Option<Failure>, receipt: Option<Failure>,
        resolve: Option<Failure>)

  datatype RecoveryResult =
    | NothingStuck
    | Recovered(nonce: nat, previousHash: nat, hash: nat)
    | RecoveryFailed(failure: Failure)

  /** The scan ends at a nonce whose ledger read fails or whose entry is stale. */
  predicate Stops(o: Options, l: Entries, e: RecoveryAnswers, nonce: nat) {
    e.read(nonce).Some? || Stale(l, KeyAt(o, nonce), e.now, o.staleAfter)
  }

  /** `nonce` is the lowest in [latest, pending) at which the scan ends. */
  ghost predicate FirstStop(o: Options, l: Entries, e: RecoveryAnswers, nonce: nat) {
    e.latest <= nonce < e.pending && Stops(o, l, e, nonce) && forall n :: e.latest <= n < nonce ==> !Stops(o, l, e, n)
  }

  ghost predicate NeverStops(o: Options, l: Entries, e: RecoveryAnswers) {
    forall n :: e.latest <= n < e.pending ==> !Stops(o, l, e, n)
  }

  function RecoveryBid(o: Options, l: Entries, e: RecoveryAnswers, nonce: nat): Snapshot
    requires KeyAt(o, nonce) in l
  {
    ResultForAttempt(e.estimate, e.gasPrice, 1, Some(l[KeyAt(o, nonce)].fees), true).overrides
  }

  /** The bid of a recovery, over every answer of the queries: each fee is the least that
      reaches 1.15 times the stuck one and 1.15 times what is quoted now. */
  lemma RecoveryBidIsExact(o: Options, l: Entries, e: RecoveryAnswers, nonce: nat)
    requires KeyAt(o, nonce) in l && WellFormed(l[KeyAt(o, nonce)].fees)
    ensures var bid, stuck := RecoveryBid(o, l, e, nonce), l[KeyAt(o, nonce)].fees;
            var quoted := Quoted(e.estimate, e.gasPrice);
            && (bid.gasPrice.Some? <==> quoted.gasPrice.Some? || stuck.gasPrice.Some?)
            && (bid == EMPTY <==> quoted == EMPTY && stuck == EMPTY)
            && (bid.gasPrice.Some? ==> BestBid(bid.gasPrice.value, quoted.gasPrice, stuck.gasPrice, 1))
            && (bid != EMPTY && bid.gasPrice.None? ==>
                  && bid.maxFee.Some? && bid.maxPriority.Some?
                  && BestBid(bid.maxFee.value, quoted.maxFee, stuck.maxFee, 1)
                  && BestBid(bid.maxPriority.value, quoted.maxPriority, stuck.maxPriority, 1))
  {
    var stuck := l[KeyAt(o, nonce)].fees;
    ResultIsExact(e.estimate, e.gasPrice, 1, Some(stuck), true);
    ResultIsValid(e.estimate, e.gasPrice, 1, Some(stuck), true);
  }

  /** A run of the step machine from the start of a call: where it is, and what it sent. */
  ghost predicate Traced(o: Options, l: Entries, trace: seq<Action>, now: Config, sent: seq<Broadcast>) {
    IsTrace(o, START, l, trace) && End(o, START, l, trace) == now && Broadcasts(o, START, l, trace) == sent
  }

  lemma OneMore(o: Options, l: Entries, trace: seq<Action>, now: Config, sent: seq<Broadcast>, a: Action, next: Config)
    returns (trace': seq<Action>)
    requires Traced(o, l, trace, now, sent) && Next(o, now.worker, now.ledger, a) == Some(next)
    ensures var e := Emits(o, now.worker, a);
            Traced(o, l, trace', next, sent + if e.Some? then [e.value] else [])
  {
    TraceExtends(o, START, l, trace, a);
    trace' := trace + [a];
  }

  function Point(pc: Pc, l: Entries): Config {
    Config(START.(pc := pc), l)
  }

  /** Where the step machine is after a recovery scan. */
  function AfterScan(o: Options, result: RecoveryResult): Worker {
    if result.RecoveryFailed? then START.(pc := Done(Threw(result.failure))) else AfterRecovery(o, START)
  }

  /** Waiting for the receipt of a recorded recovery, then resolving its entry. */
  method AwaitReceipt(
    o: Options, ledger: MemoryLedger, e: RecoveryAnswers, nonce: nat,
    ghost l: Entries, ghost sent: seq<Broadcast>, ghost before: seq<Action>)
    returns (failed: Option<Failure>, ghost trace: seq<Action>)
    requires Traced(o, l, before, Point(RecoveryWait(nonce, e.now), ledger.entries), sent)
    modifies ledger
    ensures failed == if e.receipt.Some? then e.receipt else e.resolve
    ensures ledger.entries == if failed.Some? then old(ledger.entries)
        else Resolved(old(ledger.entries), KeyAt(o, nonce), e.now)
    ensures Traced(o, l, trace,
                   if failed.Some? then Point(Done(Threw(failed.value)), ledger.entries)
                   else Config(AfterRecovery(o, START), ledger.entries), sent)
  {
    ghost var recorded := ledger.entries;
    if e.receipt.Some? {
      trace := OneMore(o, l, before, Point(RecoveryWait(nonce, e.now), recorded), sent,
                       Fail(e.receipt.value), Point(Done(Threw(e.receipt.value)), recorded));
      return e.receipt, trace;
    }
    trace := OneMore(o, l, before, Point(RecoveryWait(nonce, e.now), recorded), sent,
                     ReceiptArrives, Point(RecoveryResolve(nonce, e.now), recorded));
    if e.resolve.Some? {
      trace := OneMore(o, l, trace, Point(RecoveryResolve(nonce, e.now), recorded), sent,
                       Fail(e.resolve.value), Point(Done(Threw(e.resolve.value)), recorded));
      return e.resolve, trace;
    }
    ledger.MarkTxSubmissionResolved(KeyAt(o, nonce), e.now);
    trace := OneMore(o, l, trace, Point(RecoveryResolve(nonce, e.now), recorded), sent,
                     ResolveRecovery, Config(AfterRecovery(o, START), ledger.entries));
    failed := None;
  }

  /** The state of a recovery after its bid was handed to the wallet. */
  function AfterBid(nonce: nat, e: RecoveryAnswers, bid: Snapshot): Pc {
    if e.send.Rejected? then Done(Threw(e.send.failure)) else RecoveryRecord(nonce, e.now, e.send.hash, bid)
  }

  function BidSent(nonce: nat, e: RecoveryAnswers, bid: Snapshot): Broadcast {
    Broadcast(Recovery, nonce, WithoutConflict(bid), e.send.Taken? || e.send.accepted,
              if e.send.Taken? then Some(e.send.hash) else None, e.now)
  }

  /** Quoting fees over the stuck entry and handing them to the wallet. */
  lemma BidRuns(
    o: Options, l: Entries, e: RecoveryAnswers, nonce: nat, entry: Entry, before: seq<Action>, bid: Snapshot)
    returns (trace: seq<Action>)
    requires Traced(o, l, before, Point(RecoveryFees(nonce, e.now, entry), l), [])
    requires bid == ResultForAttempt(e.estimate, e.gasPrice, 1, Some(entry.fees), true).overrides
    ensures Traced(o, l, trace, Point(AfterBid(nonce, e, bid), l), [BidSent(nonce, e, bid)])
  {
    var sending := Point(RecoverySend(nonce, e.now, entry, bid), l);
    trace := OneMore(o, l, before, Point(RecoveryFees(nonce, e.now, entry), l), [],
                     QuoteRecovery(e.estimate, e.gasPrice), sending);
    var a := if e.send.Taken? then SendRecovery(e.send.hash) else SendFails(e.send.failure, e.send.accepted);
    trace := OneMore(o, l, trace, sending, [], a, Point(AfterBid(nonce, e, bid), l));
  }

  /** Recording a recovery the wallet took, or failing to. */
  lemma RecordRuns(
    o: Options, l: Entries, e: RecoveryAnswers, nonce: nat, before: seq<Action>, bid: Snapshot, l': Entries)
    returns (trace: seq<Action>)
    requires e.send.Taken? && Traced(o, l, before, Point(AfterBid(nonce, e, bid), l), [BidSent(nonce, e, bid)])
    requires l' == l[KeyAt(o, nonce) := Entry(Recovery, e.send.hash, e.now, bid, None)]
    ensures Traced(o, l, trace,
                   if e.record.Some? then Point(Done(Threw(e.record.value)), l)
                       else Point(RecoveryWait(nonce, e.now), l'),
                   [BidSent(nonce, e, bid)])
  {
    if e.record.Some? {
      trace := OneMore(o, l, before, Point(AfterBid(nonce, e, bid), l), [BidSent(nonce, e, bid)],
                       Fail(e.record.value), Point(Done(Threw(e.record.value)), l));
    } else {
      trace := OneMore(o, l, before, Point(AfterBid(nonce, e, bid), l), [BidSent(nonce, e, bid)],
                       RecordRecovery, Point(RecoveryWait(nonce, e.now), l'));
    }
  }

  /** Replacing the stuck transaction: send, record, wait, resolve. */
  method ReplaceStuck(
    o: Options, ledger: MemoryLedger, e: RecoveryAnswers, nonce: nat, entry: Entry, ghost before: seq<Action>)
    returns (result: RecoveryResult, sent: Broadcast, ghost trace: seq<Action>)
    requires Get(ledger.entries, KeyAt(o, nonce)) == Some(entry)
    requires Traced(o, ledger.entries, before, Point(RecoveryFees(nonce, e.now, entry), ledger.entries), [])
    modifies ledger
    ensures !result.NothingStuck?
    ensures sent == BidSent(nonce, e, RecoveryBid(o, old(ledger.entries), e, nonce))
    ensures ledger.entries ==
            if e.send.Rejected? || e.record.Some? then old(ledger.entries)
            else old(ledger.entries)[
                   KeyAt(o, nonce) := Entry(Recovery, e.send.hash, e.now, RecoveryBid(o, old(ledger.entries), e, nonce),
                                            if e.receipt.None? && e.resolve.None? then Some(e.now) else None)]
    ensures result.Recovered? <==> e.send.Taken? && e.record.None? && e.receipt.None? && e.resolve.None?
    ensures result.Recovered? ==> result == Recovered(nonce, entry.hash, e.send.hash)
    ensures Traced(o, old(ledger.entries), trace, Config(AfterScan(o, result), ledger.entries), [sent])
  {
    ghost var l := ledger.entries;
    var fees := ResultForAttempt(e.estimate, e.gasPrice, 1, Some(entry.fees), true).overrides;
    trace := BidRuns(o, l, e, nonce, entry, before, fees);
    if e.send.Rejected? {
      sent := Broadcast(Recovery, nonce, WithoutConflict(fees), e.send.accepted, None, e.now);
      return RecoveryFailed(e.send.failure), sent, trace;
    }
    sent := Broadcast(Recovery, nonce, WithoutConflict(fees), true, Some(e.send.hash), e.now);
    var recovery := Entry(Recovery, e.send.hash, e.now, fees, None);
    trace := RecordRuns(o, l, e, nonce, trace, fees, l[KeyAt(o, nonce) := recovery]);
    if e.record.Some? {
      return RecoveryFailed(e.record.value), sent, trace;
    }
    ledger.RecordTxSubmission(KeyAt(o, nonce), recovery);
    var failed;
    failed, trace := AwaitReceipt(o, ledger, e, nonce, l, [sent], trace);
    result := if failed.Some? then RecoveryFailed(failed.value) else Recovered(nonce, entry.hash, e.send.hash);
  }

  /** What the scan finds at one nonce. */
  datatype Look = Unread(failure: Failure) | Leave | Stuck(entry: Entry)

  function AfterLook(nonce: nat, e: RecoveryAnswers, look: Look): Pc {
    match look
    case Unread(failure) => Done(Threw(failure))
    case Leave => Scan(nonce + 1, e.pending, e.now)
    case Stuck(entry) => RecoveryFees(nonce, e.now, entry)
  }

  /** One round of the scan up to the decision what to do with the nonce. */
  method LookAt(o: Options, ledger: MemoryLedger, e: RecoveryAnswers, nonce: nat, ghost before: seq<Action>)
    returns (look: Look, ghost trace: seq<Action>)
    requires nonce < e.pending
    requires Traced(o, ledger.entries, before, Point(Scan(nonce, e.pending, e.now), ledger.entries), [])
    ensures look.Unread? <==> e.read(nonce).Some?
    ensures look.Leave? <==> !Stops(o, ledger.entries, e, nonce)
    ensures look.Unread? ==> look.failure == e.read(nonce).value
    ensures look.Stuck? ==> Get(ledger.entries, KeyAt(o, nonce)) == Some(look.entry)
    ensures Traced(o, ledger.entries, trace, Point(AfterLook(nonce, e, look), ledger.entries), [])
  {
    ghost var l := ledger.entries;
    ghost var here := Point(Scan(nonce, e.pending, e.now), l);
    if e.read(nonce).Some? {
      look := Unread(e.read(nonce).value);
      trace := OneMore(o, l, before, here, [], Fail(look.failure), Point(AfterLook(nonce, e, look), l));
      return;
    }
    var entry := ledger.GetTxSubmission(KeyAt(o, nonce));
    if entry.None? || entry.value.resolvedAt.Some? || e.now - entry.value.submittedAt < o.staleAfter {
      look := Leave;
    } else {
      look := Stuck(entry.value);
    }
    trace := OneMore(o, l, before, here, [], ScanEntry, Point(AfterLook(nonce, e, look), l));
  }

  /** The scan.  It finds nothing exactly when no nonce in [latest, pending) is stale and
      every ledger read succeeds.  Otherwise it ends at the lowest other nonce, `at`: with the
      failed read, or by sending one transaction there, with fees bid over its entry.  Only
      the entry at that nonce changes: to the recovery itself once it is recorded, resolved
      only if the receipt came.  What it does is a run of the step machine. */
  method RecoverStuckNonce(o: Options, ledger: MemoryLedger, e: RecoveryAnswers)
    returns (result: RecoveryResult, sends: seq<Broadcast>, ghost at: nat, ghost trace: seq<Action>)
    modifies ledger
    ensures |sends| <= 1
    ensures e.counts.Some? ==>
              result == RecoveryFailed(e.counts.value) && sends == [] && ledger.entries == old(ledger.entries)
    ensures e.counts.None? ==> (result.NothingStuck? <==> NeverStops(o, old(ledger.entries), e))
    ensures result.NothingStuck? ==> sends == [] && ledger.entries == old(ledger.entries)
    ensures e.counts.None? && !result.NothingStuck? ==> FirstStop(o, old(ledger.entries), e, at)
    ensures e.counts.None? && !result.NothingStuck? && e.read(at).Some? ==>
              result == RecoveryFailed(e.read(at).value) && sends == [] && ledger.entries == old(ledger.entries)
    ensures e.counts.None? && !result.NothingStuck? && e.read(at).None? ==>
              && KeyAt(o, at) in old(ledger.entries)
              && var bid := RecoveryBid(o, old(ledger.entries), e, at);
                 && sends == [BidSent(at, e, bid)]
                 && ledger.entries ==
                    if e.send.Rejected? || e.record.Some? then old(ledger.entries)
                    else old(ledger.entries)[
                           KeyAt(o, at) := Entry(Recovery, e.send.hash, e.now, bid,
                                                 if e.receipt.None? && e.resolve.None? then Some(e.now) else None)]
    ensures result.Recovered? ==>
              && e.counts.None? && e.read(at).None? && e.send.Taken? && e.record.None? && e.receipt.None?
                  && e.resolve.None?
              && KeyAt(o, at) in old(ledger.entries)
              && result == Recovered(at, old(ledger.entries)[KeyAt(o, at)].hash, e.send.hash)
    ensures Traced(o, old(ledger.entries), trace, Config(AfterScan(o, result), ledger.entries), sends)
  {
    ghost var l := ledger.entries;
    sends, at, trace := [], 0, [];
    if e.counts.Some? {
      trace := OneMore(o, l, trace, Point(Counts, l), [], Fail(e.counts.value), Point(Done(Threw(e.counts.value)), l));
      return RecoveryFailed(e.counts.value), sends, at, trace;
    }
    ghost var read := ReadCounts(e.pending, e.latest, e.now);
    if e.pending <= e.latest {
      trace := OneMore(o, l, trace, Point(Counts, l), [], read, Config(AfterRecovery(o, START), l));
      return NothingStuck, sends, at, trace;
    }
    trace := OneMore(o, l, trace, Point(Counts, l), [], read, Point(Scan(e.latest, e.pending, e.now), l));
    var nonce := e.latest;
    while nonce < e.pending
      invariant e.latest <= nonce <= e.pending
      invariant sends == [] && ledger.entries == l == old(ledger.entries)
      invariant forall n :: e.latest <= n < nonce ==> !Stops(o, l, e, n)
      invariant Traced(o, l, trace, Point(Scan(nonce, e.pending, e.now), l), [])
    {
      at := nonce;
      var look;
      look, trace := LookAt(o, ledger, e, nonce, trace);
      match look
      case Unread(failure) => return RecoveryFailed(failure), sends, at, trace;
      case Leave => nonce := nonce + 1;
      case Stuck(entry) =>
        var sent;
        result, sent, trace := ReplaceStuck(o, ledger, e, nonce, entry, trace);
        return result, [sent], at, trace;
    }
    trace := OneMore(o, l, trace, Point(Scan(nonce, e.pending, e.now), l), [], ScanEntry,
        Config(AfterRecovery(o, START), l));
    result := NothingStuck;
  }
}
