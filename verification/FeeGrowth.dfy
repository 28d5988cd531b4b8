/** Fees recorded for successive submissions at one unresolved ledger key compound. */
module FeeGrowth {
  import opened Text
  import opened Fees
  import opened Ledger
  import opened Worker
  import opened Broadcaster

  ghost predicate PricedLedger(l: Entries) {
    forall k :: k in l ==> Priced(l[k].fees)
  }

  /** The ledger key a step of a worker records a submission at. */
  function Writes(o: Options, w: Worker, a: Action): Option<Key> {
    if w.pc.Record? && a.RecordPayload? then Some(KeyAt(o, w.contextNonce))
    else if w.pc.RecoveryRecord? && a.RecordRecovery? then Some(KeyAt(o, w.pc.nonce))
    else None
  }

  /** The ledger key a step of a worker marks resolved. */
  function Resolves(o: Options, w: Worker, a: Action): Option<Key> {
    if w.pc.RecoveryResolve? && a.ResolveRecovery? then Some(KeyAt(o, w.pc.nonce)) else None
  }

  /** What a worker has read from the ledger still stands, and the fees it is about to
      record replace the unresolved ones at its key. */
  predicate Current(o: Options, w: Worker, l: Entries) {
    match w.pc
    case Quote(_, previous) => previous == PreviousFees(l, KeyAt(o, w.contextNonce))
    case Send(_, fee) => Outbids(l, KeyAt(o, w.contextNonce), fee.snapshot)
    case Record(_, fee) => Outbids(l, KeyAt(o, w.contextNonce), fee.snapshot)
    case RecoveryFees(nonce, _, stuck) => Pending(l, KeyAt(o, nonce)) && l[KeyAt(o, nonce)] == stuck
    case RecoverySend(nonce, _, stuck, fees) =>
      Pending(l, KeyAt(o, nonce)) && l[KeyAt(o, nonce)] == stuck && Replaces(stuck.fees, fees)
    case RecoveryRecord(nonce, _, _, fees) =>
      Pending(l, KeyAt(o, nonce)) && Replaces(l[KeyAt(o, nonce)].fees, fees)
    case _ => true
  }

  predicate Outbids(l: Entries, k: Key, fees: Snapshot) {
    WellFormed(fees) && (Pending(l, k) ==> Replaces(l[k].fees, fees))
  }

  /** The assumptions on the fee queries of a step: an EIP-1559 estimate is ordered, and the
      excluded downgrade to a legacy price does not happen. */
  predicate GoodQuote(o: Options, w: Worker, a: Action) {
    && (w.pc.Quote? && a.QuoteFees? ==>
          && OrderedEstimate(a.estimate)
          && (w.pc.previous.Some? && Priced(w.pc.previous.value) ==>
                !Downgrade(a.estimate, a.gasPrice, w.pc.attempt, w.pc.previous.value)))
    && (w.pc.RecoveryFees? && a.QuoteRecovery? ==>
          && OrderedEstimate(a.estimate)
          && (Priced(w.pc.stuck.fees) ==> !Downgrade(a.estimate, a.gasPrice, 1, w.pc.stuck.fees)))
  }

  lemma CurrentAfterQuote(o: Options, w: Worker, l: Entries, a: Action)
    requires w.pc.Quote? || w.pc.RecoveryFees?
    requires PricedLedger(l) && Current(o, w, l) && Next(o, w, l, a).Some? && GoodQuote(o, w, a)
    ensures Next(o, w, l, a).value.ledger == l
    ensures Current(o, Next(o, w, l, a).value.worker, l)
  {
    if w.pc.Quote? {
      ResultIsValid(a.estimate, a.gasPrice, w.pc.attempt, w.pc.previous, true);
      if w.pc.previous.Some? {
        ReplacementIsEnough(a.estimate, a.gasPrice, w.pc.attempt, w.pc.previous.value, true);
      }
    } else {
      ResultIsValid(a.estimate, a.gasPrice, 1, Some(w.pc.stuck.fees), true);
      ReplacementIsEnough(a.estimate, a.gasPrice, 1, w.pc.stuck.fees, true);
    }
  }

  /** What a step may change in the recorded fees: a submission it records replaces the
      unresolved one at the same key, and everything else stays. */
  predicate Replacing(o: Options, w: Worker, l: Entries, a: Action, l': Entries) {
    && (forall k :: k in l && Some(k) != Writes(o, w, a) ==>
          && k in l' && l'[k].fees == l[k].fees
          && (Some(k) != Resolves(o, w, a) ==> l'[k].resolvedAt == l[k].resolvedAt))
    && (Writes(o, w, a).Some? ==>
          var k := Writes(o, w, a).value;
          && Pending(l', k)
          && (Pending(l, k) ==> Replaces(l[k].fees, l'[k].fees)))
  }

  /** Steps that neither ask for fees nor write the ledger. */
  lemma CurrentElsewhere(o: Options, w: Worker, l: Entries, a: Action)
    requires !w.pc.Quote? && !w.pc.RecoveryFees? && !w.pc.Record? && !w.pc.RecoveryRecord? && !w.pc.RecoveryResolve?
    requires LoopInv(o, w) && PricedLedger(l) && Current(o, w, l) && Next(o, w, l, a).Some?
    ensures Next(o, w, l, a).value.ledger == l && Writes(o, w, a).None?
    ensures Current(o, Next(o, w, l, a).value.worker, l)
  {
  }

  lemma CurrentAfterRecord(o: Options, w: Worker, l: Entries, a: Action)
    requires w.pc.Record? || w.pc.RecoveryRecord?
    requires LoopInv(o, w) && PricedLedger(l) && Current(o, w, l) && Next(o, w, l, a).Some?
    ensures var n := Next(o, w, l, a).value;
            Current(o, n.worker, n.ledger) && PricedLedger(n.ledger) && Replacing(o, w, l, a, n.ledger)
  {
  }

  lemma CurrentAfterResolve(o: Options, w: Worker, l: Entries, a: Action)
    requires w.pc.RecoveryResolve?
    requires LoopInv(o, w) && PricedLedger(l) && Next(o, w, l, a).Some?
    ensures var n := Next(o, w, l, a).value;
            Current(o, n.worker, n.ledger) && PricedLedger(n.ledger) && Replacing(o, w, l, a, n.ledger)
  {
  }

  /** One step of a worker whose reads are current: they stay current, and a submission it
      records replaces the unresolved one at the same key, while nothing else changes
      recorded fees. */
  lemma CurrentStep(o: Options, w: Worker, l: Entries, a: Action)
    requires LoopInv(o, w) && PricedLedger(l) && Current(o, w, l) && Next(o, w, l, a).Some? && GoodQuote(o, w, a)
    ensures var n := Next(o, w, l, a).value;
            Current(o, n.worker, n.ledger) && PricedLedger(n.ledger) && Replacing(o, w, l, a, n.ledger)
  {
    if w.pc.Quote? || w.pc.RecoveryFees? {
      CurrentAfterQuote(o, w, l, a);
    } else if w.pc.Record? || w.pc.RecoveryRecord? {
      CurrentAfterRecord(o, w, l, a);
    } else if w.pc.RecoveryResolve? {
      CurrentAfterResolve(o, w, l, a);
    } else {
      CurrentElsewhere(o, w, l, a);
    }
  }

  /** A worker's ledger writes stay at its own address. */
  lemma WritesAtOwnAddress(o: Options, w: Worker, l: Entries, a: Action, k: Key)
    requires Next(o, w, l, a).Some? && k.from != o.from
    ensures Get(Next(o, w, l, a).value.ledger, k) == Get(l, k)
  {
  }

  lemma CurrentFrame(o: Options, w: Worker, l: Entries, l': Entries)
    requires Current(o, w, l)
    requires forall k: Key :: k.from == o.from ==> Get(l', k) == Get(l, k)
    ensures Current(o, w, l')
  {
    var k := KeyAt(o, w.contextNonce);
    assert Get(l', k) == Get(l, k);
    if w.pc.RecoveryFees? || w.pc.RecoverySend? || w.pc.RecoveryRecord? {
      var r := KeyAt(o, w.pc.nonce);
      assert Get(l', r) == Get(l, r);
    }
  }

  ghost predicate FeeInv(s: State) {
    && Inv(s)
    && PricedLedger(s.ledger)
    && forall c :: 0 <= c < |s.workers| ==> Current(s.options[c], s.workers[c], s.ledger)
  }

  ghost predicate GoodStep(s: State, step: Step)
    requires Enabled(s, step)
  {
    step.Act? ==> GoodQuote(s.options[step.call], s.workers[step.call], step.action)
  }

  /** A step of call `c` leaves the reads of every other call current. */
  lemma OthersStayCurrent(s: State, c: nat, a: Action, d: nat, l: Entries)
    requires Inv(s) && Enabled(s, Act(c, a)) && d < |s.workers| && d != c
    requires Current(s.options[d], s.workers[d], s.ledger)
    requires l == Next(s.options[c], s.workers[c], s.ledger, a).value.ledger
    ensures Current(s.options[d], s.workers[d], l)
  {
    if IsRunning(s, d) {
      OneRunner(s, c, d);
      forall k: Key | k.from == s.options[d].from
        ensures Get(l, k) == Get(s.ledger, k)
      {
        WritesAtOwnAddress(s.options[c], s.workers[c], s.ledger, a, k);
      }
      CurrentFrame(s.options[d], s.workers[d], s.ledger, l);
    }
  }

  lemma FeeInvAct(s: State, c: nat, a: Action)
    requires FeeInv(s) && Enabled(s, Act(c, a)) && GoodStep(s, Act(c, a))
    ensures FeeInv(Apply(s, Act(c, a)))
  {
    var t := Apply(s, Act(c, a));
    InvStep(s, Act(c, a));
    CurrentStep(s.options[c], s.workers[c], s.ledger, a);
    forall d | 0 <= d < |t.workers|
      ensures Current(t.options[d], t.workers[d], t.ledger)
    {
      if d != c {
        OthersStayCurrent(s, c, a, d, t.ledger);
      }
    }
  }

  lemma FeeInvStep(s: State, step: Step)
    requires FeeInv(s) && Enabled(s, step) && GoodStep(s, step)
    ensures FeeInv(Apply(s, step))
  {
    if step.Act? {
      FeeInvAct(s, step.call, step.action);
    } else {
      InvStep(s, step);
    }
  }

  ghost predicate GoodRun(s: State, steps: seq<Step>)
    requires IsRun(s, steps)
    decreases |steps|
  {
    steps == [] || (GoodStep(s, steps[0]) && GoodRun(Apply(s, steps[0]), steps[1..]))
  }

  /** Submissions recorded at `k` along a run. */
  ghost function WriteCount(s: State, steps: seq<Step>, k: Key): nat
    requires IsRun(s, steps)
    decreases |steps|
  {
    if steps == [] then 0
    else (if StepWrites(s, steps[0], k) then 1 else 0) + WriteCount(Apply(s, steps[0]), steps[1..], k)
  }

  predicate StepWrites(s: State, step: Step, k: Key)
    requires Enabled(s, step)
  {
    step.Act? && Writes(s.options[step.call], s.workers[step.call], step.action) == Some(k)
  }

  /** No step of the run marks `k` resolved. */
  ghost predicate StaysPending(s: State, steps: seq<Step>, k: Key)
    requires IsRun(s, steps)
    decreases |steps|
  {
    steps == []
    || (&& !(steps[0].Act? && Resolves(s.options[steps[0].call], s.workers[steps[0].call], steps[0].action) == Some(k))
        && StaysPending(Apply(s, steps[0]), steps[1..], k))
  }

  lemma StepOutbids(s: State, step: Step, k: Key)
    requires FeeInv(s) && Enabled(s, step) && GoodStep(s, step) && Pending(s.ledger, k)
    requires !(step.Act? && Resolves(s.options[step.call], s.workers[step.call], step.action) == Some(k))
    ensures Pending(Apply(s, step).ledger, k)
    ensures if StepWrites(s, step, k)
            then Replaces(s.ledger[k].fees, Apply(s, step).ledger[k].fees)
            else Apply(s, step).ledger[k].fees == s.ledger[k].fees
  {
    if step.Act? {
      CurrentStep(s.options[step.call], s.workers[step.call], s.ledger, step.action);
    }
  }

  /** `last` is `first` grown by at least `k` replacement bumps, and strictly if there was one. */
  ghost predicate Grown(first: nat, last: nat, k: nat) {
    && last * Pow(10000, k) >= first * Pow(11500, k)
    && last >= first
    && (k > 0 && first > 0 ==> last > first)
  }

  lemma RatiosMultiply(first: nat, mid: nat, last: nat, p: nat, q: nat)
    requires mid * 10000 >= first * 11500 && last * p >= mid * q
    ensures last * (10000 * p) >= first * (11500 * q)
  {
    MulMonotone(first * 11500, mid * 10000, q);
    calc {
      first * (11500 * q);
      (first * 11500) * q;
    <=
      (mid * 10000) * q;
      10000 * (mid * q);
    <=
      10000 * (last * p);
      last * (10000 * p);
    }
  }

  lemma PowNext(b: nat, k: nat)
    ensures Pow(b, k + 1) == b * Pow(b, k)
  {
  }

  lemma GrownFront(first: nat, mid: nat, last: nat, k: nat)
    requires mid >= ReplacementBump(first) && Grown(mid, last, k)
    ensures Grown(first, last, k + 1)
  {
    BumpGrows(first);
    PowNext(10000, k);
    PowNext(11500, k);
    RatiosMultiply(first, mid, last, Pow(10000, k), Pow(11500, k));
  }

  /** From any state that satisfies the invariant, while a ledger key stays unresolved, k
      submissions recorded at it compound its fees. */
  lemma {:induction false} Compounding(s: State, steps: seq<Step>, k: Key)
    requires FeeInv(s) && IsRun(s, steps) && GoodRun(s, steps)
    requires Pending(s.ledger, k) && StaysPending(s, steps, k)
    ensures var t := Final(s, steps);
            && Pending(t.ledger, k) && Priced(s.ledger[k].fees) && Priced(t.ledger[k].fees)
            && Grown(Cap(s.ledger[k].fees), Cap(t.ledger[k].fees), WriteCount(s, steps, k))
            && Grown(Tip(s.ledger[k].fees), Tip(t.ledger[k].fees), WriteCount(s, steps, k))
    decreases |steps|
  {
    if steps != [] {
      var next := Apply(s, steps[0]);
      FeeInvStep(s, steps[0]);
      StepOutbids(s, steps[0], k);
      Compounding(next, steps[1..], k);
      if StepWrites(s, steps[0], k) {
        var rest := WriteCount(next, steps[1..], k);
        var t := Final(next, steps[1..]);
        GrownFront(Cap(s.ledger[k].fees), Cap(next.ledger[k].fees), Cap(t.ledger[k].fees), rest);
        GrownFront(Tip(s.ledger[k].fees), Tip(next.ledger[k].fees), Tip(t.ledger[k].fees), rest);
      }
    }
  }

  lemma {:induction false} FeeInvRun(s: State, steps: seq<Step>)
    requires FeeInv(s) && IsRun(s, steps) && GoodRun(s, steps)
    ensures FeeInv(Final(s, steps))
    decreases |steps|
  {
    if steps != [] {
      FeeInvStep(s, steps[0]);
      FeeInvRun(Apply(s, steps[0]), steps[1..]);
    }
  }

  /** In every state reached from a ledger of priced entries, what each call has read from the
      ledger still stands and the fees it is about to record outbid the unresolved ones. */
  lemma FeesAreCurrent(ledger: Entries, clock: int, steps: seq<Step>)
    requires PricedLedger(ledger)
    requires IsRun(Initial(ledger, clock), steps) && GoodRun(Initial(ledger, clock), steps)
    ensures FeeInv(Final(Initial(ledger, clock), steps))
  {
    FeeInvRun(Initial(ledger, clock), steps);
  }

  /** In every interleaving, from any ledger of priced entries and after any earlier run: while
      a ledger key stays unresolved, k submissions recorded at it multiply both its fees by at
      least (11500/10000)^k, and positive fees strictly grow; failed estimates included. */
  lemma FeesCompound(ledger: Entries, clock: int, earlier: seq<Step>, later: seq<Step>, k: Key)
    requires PricedLedger(ledger)
    requires IsRun(Initial(ledger, clock), earlier) && GoodRun(Initial(ledger, clock), earlier)
    requires var s := Final(Initial(ledger, clock), earlier);
             IsRun(s, later) && GoodRun(s, later) && Pending(s.ledger, k) && StaysPending(s, later, k)
    ensures var s := Final(Initial(ledger, clock), earlier);
            var t := Final(s, later);
            && Pending(t.ledger, k) && Priced(s.ledger[k].fees) && Priced(t.ledger[k].fees)
            && Grown(Cap(s.ledger[k].fees), Cap(t.ledger[k].fees), WriteCount(s, later, k))
            && Grown(Tip(s.ledger[k].fees), Tip(t.ledger[k].fees), WriteCount(s, later, k))
  {
    FeesAreCurrent(ledger, clock, earlier);
    Compounding(Final(Initial(ledger, clock), earlier), later, k);
  }
}
