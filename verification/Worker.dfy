/** One tracked send-with-retry call as a step machine.

    The machine runs inside the address lock: it first looks for a stuck nonce and replaces
    it, then pins a nonce and runs the retry loop.  Every `await` of the source is the
    border of a step, and an Action is what the awaited operation answered. */
module Worker {
  import opened Text
  import opened Fees
  import opened Ledger

  /** A rejection, reduced to the two questions the loop asks about it. */
  datatype Failure = Failure(recoverable: bool, nonceTooLow: bool)

  /** `own` holds the fee fields of the caller's request; `from` is lowercased. */
  datatype Options = Options(
    chain: nat, from: string, requestedNonce: Option<nat>, own: Snapshot, maxAttempts: int, staleAfter: int)

  datatype Outcome =
    | Hash(hash: nat)
    | Threw(failure: Failure)
    | PostBroadcast(hash: nat, failure: Failure)
    | NeverTried

  datatype Pc =
    | Counts
    | Scan(nonce: nat, pending: nat, now: int)
    | RecoveryFees(nonce: nat, now: int, stuck: Entry)
    | RecoverySend(nonce: nat, now: int, stuck: Entry, fees: Snapshot)
    | RecoveryRecord(nonce: nat, now: int, hash: nat, fees: Snapshot)
    | RecoveryWait(nonce: nat, now: int)
    | RecoveryResolve(nonce: nat, now: int)
    | ReadNonce
    | Lookup(attempt: nat)
    | Quote(attempt: nat, previous: Option<Snapshot>)
    | Send(attempt: nat, fee: FeeResult)
    | Record(hash: nat, fee: FeeResult)
    | Refresh(attempt: nat)
    | Sleep(attempt: nat)
    | Done(outcome: Outcome)

  /** `contextNonce` belongs to the ledger context, `pinnedNonce` to the retry loop. */
  datatype Worker = Worker(pc: Pc, contextNonce: nat, pinnedNonce: nat)

  datatype Action =
    | ReadCounts(pending: nat, latest: nat, now: int)
    | ScanEntry
    | QuoteRecovery(estimate: Estimate, gasPrice: GasPrice)
    | SendRecovery(hash: nat)
    | RecordRecovery
    | ReceiptArrives
    | ResolveRecovery
    | ReadPending(nonce: nat)
    | LookUp
    | QuoteFees(estimate: Estimate, gasPrice: GasPrice)
    | SendPayload(hash: nat, journal: Option<Failure>)
    | SendFails(failure: Failure, accepted: bool)
    | RecordPayload(now: int)
    | RefreshNonce(nonce: nat)
    | Wake
    | Fail(failure: Failure)

  datatype Config = Config(worker: Worker, ledger: Entries)

  const START := Worker(Counts, 0, 0)

  function KeyAt(o: Options, nonce: nat): Key {
    Key(o.chain, o.from, nonce)
  }

  /** A recovery candidate: an unresolved entry submitted at least `staleAfter` ago. */
  predicate Stale(l: Entries, k: Key, now: int, staleAfter: int) {
    Pending(l, k) && now - l[k].submittedAt >= staleAfter
  }

  /** Entering the retry loop with a pinned nonce. */
  function StartLoop(o: Options, nonce: nat): Worker {
    Worker(if o.maxAttempts <= 0 then Done(NeverTried) else Lookup(0), nonce, nonce)
  }

  function AfterRecovery(o: Options, w: Worker): Worker {
    if o.requestedNonce.Some? then StartLoop(o, o.requestedNonce.value) else w.(pc := ReadNonce)
  }

  /** The loop's catch clause before anything was broadcast. */
  function AfterFailure(o: Options, attempt: nat, f: Failure): Pc {
    if !f.recoverable || attempt >= o.maxAttempts - 1 then Done(Threw(f))
    else if f.nonceTooLow then Refresh(attempt)
    else Sleep(attempt)
  }

  function Next(o: Options, w: Worker, l: Entries, a: Action): Option<Config> {
    match w.pc
    case Counts =>
      if a.ReadCounts? then
        Some(Config(
               if a.pending <= a.latest then AfterRecovery(o, w) else w.(pc := Scan(a.latest, a.pending, a.now)), l))
      else if a.Fail? then Some(Config(w.(pc := Done(Threw(a.failure))), l))
      else None
    case Scan(nonce, pending, now) =>
      if a.ScanEntry? then
        Some(Config(
               if nonce >= pending then AfterRecovery(o, w)
               else if Stale(l, KeyAt(o, nonce), now, o.staleAfter) then
                 w.(pc := RecoveryFees(nonce, now, l[KeyAt(o, nonce)]))
               else w.(pc := Scan(nonce + 1, pending, now)), l))
      else if a.Fail? then Some(Config(w.(pc := Done(Threw(a.failure))), l))
      else None
    case RecoveryFees(nonce, now, stuck) =>
      if a.QuoteRecovery? then
        Some(Config(
               w.(pc := RecoverySend(nonce, now, stuck,
                          ResultForAttempt(a.estimate, a.gasPrice, 1, Some(stuck.fees), true).overrides)), l))
      else None
    case RecoverySend(nonce, now, stuck, fees) =>
      if a.SendRecovery? then Some(Config(w.(pc := RecoveryRecord(nonce, now, a.hash, fees)), l))
      else if a.SendFails? then Some(Config(w.(pc := Done(Threw(a.failure))), l))
      else None
    case RecoveryRecord(nonce, now, hash, fees) =>
      if a.RecordRecovery? then
        Some(Config(w.(pc := RecoveryWait(nonce, now)), l[KeyAt(o, nonce) := Entry(Recovery, hash, now, fees, None)]))
      else if a.Fail? then Some(Config(w.(pc := Done(Threw(a.failure))), l))
      else None
    case RecoveryWait(nonce, now) =>
      if a.ReceiptArrives? then Some(Config(w.(pc := RecoveryResolve(nonce, now)), l))
      else if a.Fail? then Some(Config(w.(pc := Done(Threw(a.failure))), l))
      else None
    case RecoveryResolve(nonce, now) =>
      if a.ResolveRecovery? then Some(Config(AfterRecovery(o, w), Resolved(l, KeyAt(o, nonce), now)))
      else if a.Fail? then Some(Config(w.(pc := Done(Threw(a.failure))), l))
      else None
    case ReadNonce =>
      if a.ReadPending? then Some(Config(StartLoop(o, a.nonce), l))
      else if a.Fail? then Some(Config(w.(pc := Done(Threw(a.failure))), l))
      else None
    case Lookup(attempt) =>
      if a.LookUp? then Some(Config(w.(pc := Quote(attempt, PreviousFees(l, KeyAt(o, w.contextNonce)))), l))
      else if a.Fail? then Some(Config(w.(pc := AfterFailure(o, attempt, a.failure)), l))
      else None
    case Quote(attempt, previous) =>
      if a.QuoteFees? then
        Some(Config(w.(pc := Send(attempt, ResultForAttempt(a.estimate, a.gasPrice, attempt, previous, true))), l))
      else None
    case Send(attempt, fee) =>
      if a.SendPayload? then
        Some(Config(w.(pc := if a.journal.Some? then Done(PostBroadcast(a.hash, a.journal.value))
                             else if fee.snapshot == EMPTY then Done(Hash(a.hash))
                             else Record(a.hash, fee)), l))
      else if a.SendFails? then Some(Config(w.(pc := AfterFailure(o, attempt, a.failure)), l))
      else None
    case Record(hash, fee) =>
      if a.RecordPayload? then
        Some(Config(w.(pc := Done(Hash(hash))),
                    l[KeyAt(o, w.contextNonce) := Entry(Payload, hash, a.now, fee.snapshot, None)]))
      else if a.Fail? then Some(Config(w.(pc := Done(PostBroadcast(hash, a.failure))), l))
      else None
    case Refresh(attempt) =>
      if a.RefreshNonce? then Some(Config(Worker(Sleep(attempt), a.nonce, a.nonce), l))
      else if a.Fail? then Some(Config(w.(pc := Done(Threw(a.failure))), l))
      else None
    case Sleep(attempt) =>
      if a.Wake? then Some(Config(w.(pc := Lookup(attempt + 1)), l)) else None
    case Done(_) => None
  }

  // ---------------------------------------------------------------- what reaches the network

  datatype Broadcast = Broadcast(origin: Origin, nonce: nat, fees: Snapshot, accepted: bool, hash: Option<nat>, at: int)

  /** `removeConflictingLegacyGasPrice` */
  function WithoutConflict(s: Snapshot): Snapshot {
    if s.maxFee.Some? && s.maxPriority.Some? then s.(gasPrice := None) else s
  }

  /** The fee fields of the request handed to the wallet. */
  function RequestFees(o: Options, fee: FeeResult): Snapshot {
    WithoutConflict(if fee.kind == NoFees then o.own else fee.overrides)
  }

  /** The request a step hands to the wallet, if any.  A rejected request may nevertheless
      have been accepted by the network. */
  function Emits(o: Options, w: Worker, a: Action): Option<Broadcast> {
    match w.pc
    case Send(_, fee) =>
      if a.SendPayload? then Some(Broadcast(Payload, w.pinnedNonce, RequestFees(o, fee), true, Some(a.hash), 0))
      else if a.SendFails? then Some(Broadcast(Payload, w.pinnedNonce, RequestFees(o, fee), a.accepted, None, 0))
      else None
    case RecoverySend(nonce, now, _, fees) =>
      if a.SendRecovery? then Some(Broadcast(Recovery, nonce, WithoutConflict(fees), true, Some(a.hash), now))
      else if a.SendFails? then Some(Broadcast(Recovery, nonce, WithoutConflict(fees), a.accepted, None, now))
      else None
    case _ => None
  }

  predicate IsTrace(o: Options, w: Worker, l: Entries, trace: seq<Action>)
    decreases |trace|
  {
    trace == []
    || (var n := Next(o, w, l, trace[0]);
        n.Some? && IsTrace(o, n.value.worker, n.value.ledger, trace[1..]))
  }

  function End(o: Options, w: Worker, l: Entries, trace: seq<Action>): Config
    requires IsTrace(o, w, l, trace)
    decreases |trace|
  {
    if trace == [] then Config(w, l)
    else
      var n := Next(o, w, l, trace[0]).value;
      End(o, n.worker, n.ledger, trace[1..])
  }

  /** Requests handed to the wallet along a trace, in order. */
  function Broadcasts(o: Options, w: Worker, l: Entries, trace: seq<Action>): seq<Broadcast>
    requires IsTrace(o, w, l, trace)
    decreases |trace|
  {
    if trace == [] then []
    else
      var e := Emits(o, w, trace[0]);
      var n := Next(o, w, l, trace[0]).value;
      (if e.Some? then [e.value] else []) + Broadcasts(o, n.worker, n.ledger, trace[1..])
  }

  /** Traces compose. */
  lemma {:induction false} TraceExtends(o: Options, w: Worker, l: Entries, trace: seq<Action>, a: Action)
    requires IsTrace(o, w, l, trace)
    requires Next(o, End(o, w, l, trace).worker, End(o, w, l, trace).ledger, a).Some?
    ensures IsTrace(o, w, l, trace + [a])
    ensures var c := End(o, w, l, trace);
            && End(o, w, l, trace + [a]) == Next(o, c.worker, c.ledger, a).value
            && Broadcasts(o, w, l, trace + [a])
               == Broadcasts(o, w, l, trace) + (var e := Emits(o, c.worker, a); if e.Some? then [e.value] else [])
    decreases |trace|
  {
    if trace == [] {
      assert [a][1..] == [];
    } else {
      var n := Next(o, w, l, trace[0]).value;
      TraceExtends(o, n.worker, n.ledger, trace[1..], a);
      assert (trace + [a])[0] == trace[0] && (trace + [a])[1..] == trace[1..] + [a];
    }
  }

  // ---------------------------------------------------------------- one call

  predicate InLoop(pc: Pc) {
    pc.Lookup? || pc.Quote? || pc.Send? || pc.Record? || pc.Refresh? || pc.Sleep?
  }

  /** What the retry loop keeps: one nonce in both variables, an attempt within its budget,
      and a fee result whose overrides are its snapshot. */
  predicate LoopInv(o: Options, w: Worker) {
    && (InLoop(w.pc) ==> w.pinnedNonce == w.contextNonce)
    && (w.pc.Lookup? || w.pc.Quote? || w.pc.Send? ==> w.pc.attempt < o.maxAttempts)
    && (w.pc.Refresh? || w.pc.Sleep? ==> w.pc.attempt < o.maxAttempts - 1)
    && (w.pc.Send? || w.pc.Record? ==>
          && w.pc.fee.overrides == w.pc.fee.snapshot
          && (w.pc.fee.kind == NoFees <==> w.pc.fee.snapshot == EMPTY)
          && (w.pc.fee.snapshot.gasPrice.Some? ==> w.pc.fee.snapshot.maxFee.None?))
    && (w.pc.Record? ==> w.pc.fee.snapshot != EMPTY)
  }

  lemma LoopInvStep(o: Options, w: Worker, l: Entries, a: Action)
    requires LoopInv(o, w) && Next(o, w, l, a).Some?
    ensures LoopInv(o, Next(o, w, l, a).value.worker)
  {
    if w.pc.Quote? {
      ResultIsValid(a.estimate, a.gasPrice, w.pc.attempt, w.pc.previous, true);
    }
  }

  /** Everything one step may do to the nonce, the wallet and the ledger. */
  lemma StepEffects(o: Options, w: Worker, l: Entries, a: Action)
    requires LoopInv(o, w) && Next(o, w, l, a).Some?
    ensures var n := Next(o, w, l, a).value;
            var e := Emits(o, w, a);
            // a payload goes out under the context's nonce, with the fees that are then recorded
            && (e.Some? && e.value.origin == Payload ==>
                  && e.value.nonce == w.contextNonce
                  && (n.worker.pc.Record? ==>
                      e.value.hash == Some(n.worker.pc.hash) && n.worker.pc.fee.snapshot == e.value.fees))
            // a pinned nonce moves only by a refresh, and a refresh only follows "nonce too low"
            && (InLoop(w.pc) && n.worker.contextNonce != w.contextNonce ==> w.pc.Refresh?)
            && (n.worker.pc.Refresh? ==> (a.SendFails? || a.Fail?) && a.failure.nonceTooLow && a.failure.recoverable)
            // the loop's only ledger write is the entry of the transaction just sent
            && (InLoop(w.pc) && n.ledger != l ==>
                  && w.pc.Record?
                  && n.ledger == l[KeyAt(o, w.contextNonce) :=
                      Entry(Payload, w.pc.hash, a.now, w.pc.fee.snapshot, None)])
  {
  }

  /** Attempts the loop may still make. */
  function Budget(o: Options, w: Worker): nat {
    var left := match w.pc
      case Lookup(i) => o.maxAttempts - i
      case Quote(i, _) => o.maxAttempts - i
      case Send(i, _) => o.maxAttempts - i
      case Refresh(i) => o.maxAttempts - 1 - i
      case Sleep(i) => o.maxAttempts - 1 - i
      case Record(_, _) => 0
      case Done(_) => 0
      case _ => o.maxAttempts;
    if left < 0 then 0 else left
  }

  predicate IsPayload(b: Broadcast) {
    b.origin == Payload
  }

  function Payloads(bs: seq<Broadcast>): seq<Broadcast> {
    if bs == [] then []
    else (if IsPayload(bs[0]) then [bs[0]] else []) + Payloads(bs[1..])
  }

  lemma PayloadsCons(o: Options, w: Worker, l: Entries, trace: seq<Action>)
    requires IsTrace(o, w, l, trace) && trace != []
    ensures var n := Next(o, w, l, trace[0]).value;
            Payloads(Broadcasts(o, w, l, trace))
            == PayloadOf(o, w, trace[0]) + Payloads(Broadcasts(o, n.worker, n.ledger, trace[1..]))
  {
    var e := Emits(o, w, trace[0]);
    var n := Next(o, w, l, trace[0]).value;
    var rest := Broadcasts(o, n.worker, n.ledger, trace[1..]);
    if e.Some? {
      assert ([e.value] + rest)[1..] == rest;
    } else {
      assert [] + rest == rest;
    }
  }

  /** The hash a program point has obtained from the wallet. */
  function HashOf(pc: Pc): Option<nat> {
    match pc
    case Record(h, _) => Some(h)
    case Done(Hash(h)) => Some(h)
    case Done(PostBroadcast(h, _)) => Some(h)
    case _ => None
  }

  /** At most `budget` sends, only the last of which may have returned a hash, and that
      hash is the one the call ended up with. */
  predicate OneHash(sends: seq<Broadcast>, pc: Pc, budget: nat) {
    && |sends| <= budget
    && (forall i :: 0 <= i < |sends| - 1 ==> sends[i].hash.None?)
    && HashOf(pc) == if sends == [] then None else sends[|sends| - 1].hash
  }

  function PayloadOf(o: Options, w: Worker, a: Action): seq<Broadcast> {
    var e := Emits(o, w, a);
    if e.Some? && IsPayload(e.value) then [e.value] else []
  }

  lemma StepBudget(o: Options, w: Worker, l: Entries, a: Action)
    requires LoopInv(o, w) && Next(o, w, l, a).Some? && HashOf(w.pc).None?
    ensures var n := Next(o, w, l, a).value.worker;
            && Budget(o, n) + |PayloadOf(o, w, a)| <= Budget(o, w)
            && HashOf(n.pc) == if PayloadOf(o, w, a) == [] then None else PayloadOf(o, w, a)[0].hash
  {
  }

  /** Once the wallet has returned a hash, the call sends nothing more. */
  lemma {:induction false} SilentAfterHash(o: Options, w: Worker, l: Entries, trace: seq<Action>)
    requires IsTrace(o, w, l, trace) && HashOf(w.pc).Some?
    ensures Broadcasts(o, w, l, trace) == [] && HashOf(End(o, w, l, trace).worker.pc) == HashOf(w.pc)
    decreases |trace|
  {
    if trace != [] {
      var n := Next(o, w, l, trace[0]).value;
      SilentAfterHash(o, n.worker, n.ledger, trace[1..]);
    }
  }

  /** Over a whole call: at most `maxAttempts` sends, no send after one that returned a hash,
      and the call ends with a hash exactly if its last send returned that hash. */
  lemma {:induction false} AtMostOneHash(o: Options, w: Worker, l: Entries, trace: seq<Action>)
    requires LoopInv(o, w) && IsTrace(o, w, l, trace) && HashOf(w.pc).None?
    ensures OneHash(Payloads(Broadcasts(o, w, l, trace)), End(o, w, l, trace).worker.pc, Budget(o, w))
    decreases |trace|
  {
    if trace != [] {
      var n := Next(o, w, l, trace[0]).value;
      PayloadsCons(o, w, l, trace);
      LoopInvStep(o, w, l, trace[0]);
      StepBudget(o, w, l, trace[0]);
      var rest := Payloads(Broadcasts(o, n.worker, n.ledger, trace[1..]));
      if HashOf(n.worker.pc).Some? {
        SilentAfterHash(o, n.worker, n.ledger, trace[1..]);
        assert rest == [];
      } else {
        AtMostOneHash(o, n.worker, n.ledger, trace[1..]);
      }
    }
  }

  lemma {:induction false} TracePrefix(o: Options, w: Worker, l: Entries, trace: seq<Action>, i: nat)
    requires IsTrace(o, w, l, trace) && i < |trace|
    ensures IsTrace(o, w, l, trace[..i]) && IsTrace(o, w, l, trace[..i + 1])
    ensures var c := End(o, w, l, trace[..i]);
            var n := Next(o, c.worker, c.ledger, trace[i]);
            n.Some? && End(o, w, l, trace[..i + 1]) == n.value
    decreases |trace|
  {
    var n := Next(o, w, l, trace[0]).value;
    assert trace[..i + 1][1..] == trace[1..][..i];
    if i > 0 {
      assert trace[..i][1..] == trace[1..][..i - 1];
      TracePrefix(o, n.worker, n.ledger, trace[1..], i - 1);
    }
  }

  lemma {:induction false} LoopInvTrace(o: Options, w: Worker, l: Entries, trace: seq<Action>)
    requires LoopInv(o, w) && IsTrace(o, w, l, trace)
    ensures LoopInv(o, End(o, w, l, trace).worker)
    decreases |trace|
  {
    if trace != [] {
      var n := Next(o, w, l, trace[0]).value;
      LoopInvStep(o, w, l, trace[0]);
      LoopInvTrace(o, n.worker, n.ledger, trace[1..]);
    }
  }

  /** A payload goes out under the context's nonce; inside the loop that nonce moves only by
      a refresh, and the ledger only by recording a payload. */
  predicate StepFaithful(o: Options, c: Config, a: Action, n: Config) {
    var e := Emits(o, c.worker, a);
    && (e.Some? && e.value.origin == Payload ==> e.value.nonce == c.worker.contextNonce)
    && (InLoop(c.worker.pc) && n.worker.contextNonce != c.worker.contextNonce ==> a.RefreshNonce?)
    && (InLoop(c.worker.pc) && n.ledger != c.ledger ==> a.RecordPayload?)
  }

  /** A refresh comes right after a recoverable "nonce too low" rejection; a payload is
      recorded right after it was sent, with exactly the nonce, hash and fees sent. */
  predicate Preceded(o: Options, p: Config, before: Action, c: Config, a: Action, n: Config) {
    && (a.RefreshNonce? ==>
          (before.SendFails? || before.Fail?) && before.failure.nonceTooLow && before.failure.recoverable)
    && (a.RecordPayload? ==>
          var b := Emits(o, p.worker, before);
          && b.Some? && b.value.origin == Payload && b.value.hash.Some?
          && n.ledger == c.ledger[
               KeyAt(o, b.value.nonce) := Entry(Payload, b.value.hash.value, a.now, b.value.fees, None)])
  }

  lemma RefreshIsPreceded(o: Options, p: Config, before: Action, c: Config, a: Action, n: Config)
    requires LoopInv(o, p.worker) && a.RefreshNonce?
    requires Next(o, p.worker, p.ledger, before) == Some(c) && Next(o, c.worker, c.ledger, a) == Some(n)
    ensures Preceded(o, p, before, c, a, n)
  {
    StepEffects(o, p.worker, p.ledger, before);
    assert c.worker.pc.Refresh?;
  }

  lemma RecordIsPreceded(o: Options, p: Config, before: Action, c: Config, a: Action, n: Config)
    requires LoopInv(o, p.worker) && LoopInv(o, c.worker) && a.RecordPayload?
    requires Next(o, p.worker, p.ledger, before) == Some(c) && Next(o, c.worker, c.ledger, a) == Some(n)
    ensures Preceded(o, p, before, c, a, n)
  {
    StepEffects(o, p.worker, p.ledger, before);
    assert c.worker.pc.Record? && p.worker.pc.Send?;
  }

  lemma TwoSteps(o: Options, p: Config, before: Action, c: Config, a: Action, n: Config)
    requires LoopInv(o, p.worker) && LoopInv(o, c.worker)
    requires Next(o, p.worker, p.ledger, before) == Some(c) && Next(o, c.worker, c.ledger, a) == Some(n)
    ensures Preceded(o, p, before, c, a, n)
  {
    if a.RefreshNonce? {
      RefreshIsPreceded(o, p, before, c, a, n);
    } else if a.RecordPayload? {
      RecordIsPreceded(o, p, before, c, a, n);
    }
  }

  /** The configuration before step i of a trace. */
  function ConfigAt(o: Options, w: Worker, l: Entries, trace: seq<Action>, i: nat): Config
    requires i <= |trace| && IsTrace(o, w, l, trace[..i])
  {
    End(o, w, l, trace[..i])
  }

  /** A point where no step is under way: the start of a call, or of its retry loop. */
  predicate AtRest(o: Options, w: Worker) {
    w == START || w == StartLoop(o, w.contextNonce)
  }

  /** Along a whole call, or a whole retry loop: every step is faithful, and every refresh
      and every ledger entry of a payload answers to the step right before it. */
  lemma CallIsFaithful(o: Options, w: Worker, l: Entries, trace: seq<Action>, i: nat)
    requires AtRest(o, w) && IsTrace(o, w, l, trace) && i < |trace|
    ensures IsTrace(o, w, l, trace[..i]) && IsTrace(o, w, l, trace[..i + 1])
    ensures StepFaithful(o, ConfigAt(o, w, l, trace, i), trace[i], ConfigAt(o, w, l, trace, i + 1))
    ensures trace[i].RefreshNonce? || trace[i].RecordPayload? ==>
              && i > 0
              && IsTrace(o, w, l, trace[..i - 1])
              && Preceded(o, ConfigAt(o, w, l, trace, i - 1), trace[i - 1],
                          ConfigAt(o, w, l, trace, i), trace[i], ConfigAt(o, w, l, trace, i + 1))
  {
    TracePrefix(o, w, l, trace, i);
    var c := ConfigAt(o, w, l, trace, i);
    LoopInvTrace(o, w, l, trace[..i]);
    StepEffects(o, c.worker, c.ledger, trace[i]);
    if i > 0 {
      TracePrefix(o, w, l, trace, i - 1);
      LoopInvTrace(o, w, l, trace[..i - 1]);
      TwoSteps(o, ConfigAt(o, w, l, trace, i - 1), trace[i - 1], c, trace[i], ConfigAt(o, w, l, trace, i + 1));
    } else {
      assert trace[..0] == [];
    }
  }

  // ---------------------------------------------------------------- what a step does, for the interleaved system

  /** The nonce of a call without a nonce of its own: it is what a pending count said, and
      it stands while payloads go out under it; recovery requests precede it. */
  lemma NonceEffects(o: Options, w: Worker, l: Entries, a: Action)
    requires LoopInv(o, w) && Next(o, w, l, a).Some? && o.requestedNonce.None?
    ensures var n := Next(o, w, l, a).value.worker;
            InLoop(n.pc) ==>
              || ((a.ReadPending? || a.RefreshNonce?) && n.contextNonce == a.nonce)
              || (InLoop(w.pc) && n.contextNonce == w.contextNonce)
    ensures var n := Next(o, w, l, a).value.worker;
            var e := Emits(o, w, a);
            && (e.Some? && e.value.origin == Payload ==> InLoop(w.pc) && e.value.nonce == w.contextNonce)
            && (e.Some? && e.value.origin == Recovery ==> !InLoop(n.pc))
            && (e.Some? ==> !a.ReadPending? && !a.RefreshNonce?)
  {
  }
}
