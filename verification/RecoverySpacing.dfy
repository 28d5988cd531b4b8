/** Two recoveries of one nonce are at least the stale time apart. */
module RecoverySpacing {
  import opened Text
  import opened Ledger
  import opened Worker
  import opened Broadcaster

  predicate IsRecovery(e: Sent) {
    e.b.origin == Recovery && e.b.hash.Some?
  }

  function SentKey(e: Sent): Key {
    Key(e.chain, e.from, e.b.nonce)
  }

  /** The time a recovery scan works with. */
  function NowOf(pc: Pc): Option<int> {
    match pc
    case Scan(_, _, now) => Some(now)
    case RecoveryFees(_, now, _) => Some(now)
    case RecoverySend(_, now, _, _) => Some(now)
    case RecoveryRecord(_, now, _, _) => Some(now)
    case _ => None
  }

  /** A recovery in preparation targets an entry that is still there and still stale. */
  predicate StillStale(o: Options, w: Worker, l: Entries) {
    w.pc.RecoveryFees? || w.pc.RecoverySend? ==>
      Stale(l, KeyAt(o, w.pc.nonce), w.pc.now, o.staleAfter)
  }

  /** Every recovery sent left a trace: its key was submitted no earlier than the recovery,
      or the call that sent it is just about to record it. */
  predicate Covered(s: State, e: Sent)
    requires Sized(s)
  {
    || (SentKey(e) in s.ledger && s.ledger[SentKey(e)].submittedAt >= e.b.at)
    || (&& IsRunning(s, e.call)
        && s.workers[e.call].pc.RecoveryRecord?
        && s.workers[e.call].pc.nonce == e.b.nonce
        && s.workers[e.call].pc.now == e.b.at)
  }

  ghost predicate Spaced(s: State)
    requires Inv(s)
  {
    forall i, j :: 0 <= i < j < |s.sent| && IsRecovery(s.sent[i]) && IsRecovery(s.sent[j])
                   && SentKey(s.sent[i]) == SentKey(s.sent[j])
      ==> s.sent[j].b.at - s.sent[i].b.at >= s.options[s.sent[j].call].staleAfter
  }

  /** A scan's time is not in the future and not before any recovery of its address. */
  ghost predicate Timely(s: State, c: nat)
    requires Sized(s) && c < |s.workers|
  {
    NowOf(s.workers[c].pc).Some? ==>
      && NowOf(s.workers[c].pc).value <= s.clock
      && forall i :: 0 <= i < |s.sent| && IsRecovery(s.sent[i]) && s.sent[i].from == s.options[c].from
           ==> s.sent[i].b.at <= NowOf(s.workers[c].pc).value
  }

  /** Requests are logged in the order they are handed over, none in the future, and a
      recovery not before the time its scan worked with. */
  ghost predicate HandedOver(s: State) {
    && (forall i, j :: 0 <= i < j < |s.sent| ==> s.sent[i].sentAt <= s.sent[j].sentAt)
    && (forall i :: 0 <= i < |s.sent| ==>
          s.sent[i].sentAt <= s.clock && (IsRecovery(s.sent[i]) ==> s.sent[i].b.at <= s.sent[i].sentAt))
  }

  ghost predicate SpacingInv(s: State) {
    && Inv(s)
    && (forall c :: 0 <= c < |s.workers| ==> Timely(s, c) && StillStale(s.options[c], s.workers[c], s.ledger))
    && (forall i :: 0 <= i < |s.sent| && IsRecovery(s.sent[i]) ==> Covered(s, s.sent[i]))
    && HandedOver(s)
    && Spaced(s)
  }

  /** The assumption: recording a recovery in the ledger does not fail. */
  predicate RecordsRecovery(s: State, step: Step)
    requires Enabled(s, step)
  {
    step.Act? && s.workers[step.call].pc.RecoveryRecord? ==> step.action.RecordRecovery?
  }

  /** What a worker's step means for time, the log and the ledger. */
  lemma TimeEffects(o: Options, w: Worker, l: Entries, a: Action)
    requires StillStale(o, w, l) && Next(o, w, l, a).Some?
    ensures var n := Next(o, w, l, a).value;
            var e := Emits(o, w, a);
            && StillStale(o, n.worker, n.ledger)
            && (NowOf(n.worker.pc).Some? ==>
                  (a.ReadCounts? && NowOf(n.worker.pc).value == a.now) || NowOf(n.worker.pc) == NowOf(w.pc))
            && (e.Some? && e.value.origin == Recovery && e.value.hash.Some? ==>
                  && w.pc.RecoverySend? && e.value.nonce == w.pc.nonce && e.value.at == w.pc.now
                  && n.worker.pc.RecoveryRecord? && n.worker.pc.nonce == w.pc.nonce && n.worker.pc.now == w.pc.now)
            && (forall k :: k in l ==>
                  && k in n.ledger
                  && (n.ledger[k].submittedAt == l[k].submittedAt
                      || (k.from == o.from && a.RecordPayload? && n.ledger[k].submittedAt == a.now)
                      || (k.from == o.from && w.pc.RecoveryRecord? && n.ledger[k].submittedAt == w.pc.now)))
            && (w.pc.RecoveryRecord? && a.RecordRecovery? ==>
                  KeyAt(o, w.pc.nonce) in n.ledger && n.ledger[KeyAt(o, w.pc.nonce)].submittedAt == w.pc.now)
            && (forall k: Key :: k.from != o.from ==> Get(n.ledger, k) == Get(l, k))
  {
  }

  /** What a body step of call `c` means for time, the log and the ledger. */
  ghost predicate TimeMoved(s: State, t: State, c: nat, log: seq<Sent>)
    requires Sized(s) && Sized(t)
  {
    && Moved(s, t, c, log) && IsRunning(s, c)
    && var o, w, w' := s.options[c], s.workers[c], t.workers[c];
       && StillStale(o, w', t.ledger)
       && (NowOf(w'.pc).Some? ==> NowOf(w'.pc) == Some(s.clock) || NowOf(w'.pc) == NowOf(w.pc))
       && (log != [] ==> log[0].sentAt == s.clock)
       && (log != [] && IsRecovery(log[0]) ==>
             && w.pc.RecoverySend? && log[0].b.nonce == w.pc.nonce && log[0].b.at == w.pc.now
             && w'.pc.RecoveryRecord? && w'.pc.nonce == w.pc.nonce && w'.pc.now == w.pc.now)
       && (forall k :: k in s.ledger ==>
             && k in t.ledger
             && (t.ledger[k].submittedAt == s.ledger[k].submittedAt
                 || (k.from == o.from && t.ledger[k].submittedAt == s.clock)
                 || (k.from == o.from && w.pc.RecoveryRecord? && t.ledger[k].submittedAt == w.pc.now)))
       && (w.pc.RecoveryRecord? ==>
             KeyAt(o, w.pc.nonce) in t.ledger && t.ledger[KeyAt(o, w.pc.nonce)].submittedAt == w.pc.now)
       && (forall k: Key :: k.from != o.from ==> Get(t.ledger, k) == Get(s.ledger, k))
  }

  lemma ActMovesTime(s: State, c: nat, a: Action)
    requires Enabled(s, Act(c, a)) && StillStale(s.options[c], s.workers[c], s.ledger)
    requires RecordsRecovery(s, Act(c, a))
    ensures Sized(Apply(s, Act(c, a))) && TimeMoved(s, Apply(s, Act(c, a)), c, Log(s, c, a))
  {
    TimeEffects(s.options[c], s.workers[c], s.ledger, a);
  }

  lemma TimelyAfterAct(s: State, t: State, c: nat, log: seq<Sent>, d: nat)
    requires Inv(s) && Sized(t) && TimeMoved(s, t, c, log) && HandedOver(s)
    requires d < |s.workers| && Timely(s, c) && Timely(s, d)
    ensures Timely(t, d)
  {
    if d != c && IsRunning(s, d) {
      OneRunner(s, c, d);
    }
  }

  lemma StillStaleAfterAct(s: State, t: State, c: nat, log: seq<Sent>, d: nat)
    requires Inv(s) && Sized(t) && TimeMoved(s, t, c, log)
    requires d < |s.workers| && StillStale(s.options[d], s.workers[d], s.ledger)
    ensures StillStale(t.options[d], t.workers[d], t.ledger)
  {
    if d != c && IsRunning(s, d) {
      OneRunner(s, c, d);
    }
  }

  lemma CoveredAfterAct(s: State, t: State, c: nat, log: seq<Sent>, e: Sent)
    requires Inv(s) && Sized(t) && TimeMoved(s, t, c, log) && Covered(s, e)
    requires e.call < |s.options| && e.from == s.options[e.call].from && e.chain == s.options[e.call].chain
    requires e.b.at <= s.clock
    requires NowOf(s.workers[c].pc).Some? && e.from == s.options[c].from ==> e.b.at <= NowOf(s.workers[c].pc).value
    ensures Covered(t, e)
  {
    if IsRunning(s, e.call) && e.call != c {
      OneRunner(s, c, e.call);
    }
  }

  lemma SpacedAppend(s: State, t: State, c: nat, log: seq<Sent>)
    requires Inv(s) && Inv(t) && Spaced(s) && Moved(s, t, c, log)
    requires forall i :: 0 <= i < |s.sent| && log != [] && IsRecovery(log[0]) && IsRecovery(s.sent[i])
                         && SentKey(s.sent[i]) == SentKey(log[0])
               ==> log[0].b.at - s.sent[i].b.at >= s.options[c].staleAfter
    ensures Spaced(t)
  {
  }

  lemma SpacedAfterAct(s: State, t: State, c: nat, log: seq<Sent>)
    requires Inv(s) && Inv(t) && TimeMoved(s, t, c, log) && Spaced(s)
    requires StillStale(s.options[c], s.workers[c], s.ledger)
    requires forall i :: 0 <= i < |s.sent| && IsRecovery(s.sent[i]) ==> Covered(s, s.sent[i])
    ensures Spaced(t)
  {
    forall i | 0 <= i < |s.sent| && log != [] && IsRecovery(log[0]) && IsRecovery(s.sent[i])
               && SentKey(s.sent[i]) == SentKey(log[0])
      ensures log[0].b.at - s.sent[i].b.at >= s.options[c].staleAfter
    {
    }
    SpacedAppend(s, t, c, log);
  }

  lemma HandedOverAfterAct(s: State, t: State, c: nat, log: seq<Sent>)
    requires Sized(s) && Sized(t) && TimeMoved(s, t, c, log) && HandedOver(s) && Timely(s, c)
    ensures HandedOver(t)
  {
  }

  lemma AllCoveredAfterAct(s: State, t: State, c: nat, log: seq<Sent>, i: nat)
    requires Inv(s) && Sized(t) && TimeMoved(s, t, c, log) && HandedOver(s) && Timely(s, c)
    requires i < |t.sent| && IsRecovery(t.sent[i]) && (i < |s.sent| ==> Covered(s, s.sent[i]))
    ensures Covered(t, t.sent[i])
  {
    if i < |s.sent| {
      CoveredAfterAct(s, t, c, log, s.sent[i]);
    }
  }

  lemma SpacingAfterAct(s: State, t: State, c: nat, log: seq<Sent>)
    requires SpacingInv(s) && Inv(t) && TimeMoved(s, t, c, log)
    ensures SpacingInv(t)
  {
    assert Timely(s, c);
    forall d | 0 <= d < |t.workers|
      ensures Timely(t, d) && StillStale(t.options[d], t.workers[d], t.ledger)
    {
      TimelyAfterAct(s, t, c, log, d);
      StillStaleAfterAct(s, t, c, log, d);
    }
    forall i | 0 <= i < |t.sent| && IsRecovery(t.sent[i])
      ensures Covered(t, t.sent[i])
    {
      AllCoveredAfterAct(s, t, c, log, i);
    }
    HandedOverAfterAct(s, t, c, log);
    SpacedAfterAct(s, t, c, log);
  }

  /** Steps other than those of a call's body: calls come, enter, leave, and time passes. */
  predicate Outside(s: State, t: State)
    requires Sized(s) && Sized(t)
  {
    && |s.workers| <= |t.workers| && s.clock <= t.clock && t.ledger == s.ledger && t.sent == s.sent
    && (forall d :: 0 <= d < |t.workers| && d < |s.workers| ==>
          t.workers[d] == s.workers[d] && t.options[d] == s.options[d])
    && (forall d :: 0 <= d < |t.workers| && d >= |s.workers| ==> t.workers[d] == START)
    && (forall d :: 0 <= d < |s.workers| && IsRunning(s, d) && !Finished(s.workers[d]) ==> IsRunning(t, d))
  }

  lemma StepIsOutside(s: State, step: Step)
    requires Enabled(s, step) && !step.Act?
    ensures Sized(Apply(s, step)) && Outside(s, Apply(s, step))
  {
  }

  lemma SpacingOutside(s: State, t: State)
    requires SpacingInv(s) && Inv(t) && Outside(s, t)
    ensures SpacingInv(t)
  {
    forall d | 0 <= d < |t.workers|
      ensures Timely(t, d) && StillStale(t.options[d], t.workers[d], t.ledger)
    {
      if d < |s.workers| {
        assert Timely(s, d);
      }
    }
    forall i | 0 <= i < |t.sent| && IsRecovery(t.sent[i])
      ensures Covered(t, t.sent[i])
    {
      assert Covered(s, s.sent[i]);
    }
  }

  lemma SpacingInvStep(s: State, step: Step)
    requires SpacingInv(s) && Enabled(s, step) && RecordsRecovery(s, step)
    ensures SpacingInv(Apply(s, step))
  {
    InvStep(s, step);
    if step.Act? {
      ActMovesTime(s, step.call, step.action);
      SpacingAfterAct(s, Apply(s, step), step.call, Log(s, step.call, step.action));
    } else {
      StepIsOutside(s, step);
      SpacingOutside(s, Apply(s, step));
    }
  }

  ghost predicate RecordingRun(s: State, steps: seq<Step>)
    requires IsRun(s, steps)
    decreases |steps|
  {
    steps == [] || (RecordsRecovery(s, steps[0]) && RecordingRun(Apply(s, steps[0]), steps[1..]))
  }

  lemma {:induction false} SpacingInvRun(s: State, steps: seq<Step>)
    requires SpacingInv(s) && IsRun(s, steps) && RecordingRun(s, steps)
    ensures SpacingInv(Final(s, steps))
    decreases |steps|
  {
    if steps != [] {
      SpacingInvStep(s, steps[0]);
      SpacingInvRun(Apply(s, steps[0]), steps[1..]);
    }
  }

  /** In every interleaving, from any ledger, with a clock that never goes back: the
      submission times recorded for two recoveries the wallet took at one nonce of one account,
      which are the times their scans worked with, lie at least the later call's stale time
      apart, also when waiting for a receipt or resolving the entry fails. */
  lemma RecordedTimesAreSpaced(ledger: Entries, clock: int, steps: seq<Step>, i: nat, j: nat)
    requires IsRun(Initial(ledger, clock), steps) && RecordingRun(Initial(ledger, clock), steps)
    requires i < j < |Final(Initial(ledger, clock), steps).sent|
    requires var sent := Final(Initial(ledger, clock), steps).sent;
             IsRecovery(sent[i]) && IsRecovery(sent[j]) && SentKey(sent[i]) == SentKey(sent[j])
    ensures var t := Final(Initial(ledger, clock), steps);
            && t.sent[j].call < |t.options|
            && t.sent[j].b.at - t.sent[i].b.at >= t.options[t.sent[j].call].staleAfter
  {
    SpacingInvRun(Initial(ledger, clock), steps);
  }

  // ---------------------------------------------------------------- hand-over times

  /** How long a recovery took from its scan's time to its hand-over. */
  function Delay(e: Sent): int {
    e.sentAt - e.b.at
  }

  /** The wallet takes two recoveries at one nonce at least the later call's stale time apart,
      less what the earlier one was delayed between its scan and its hand-over. */
  lemma RecoveriesAreSpaced(ledger: Entries, clock: int, steps: seq<Step>, i: nat, j: nat)
    requires IsRun(Initial(ledger, clock), steps) && RecordingRun(Initial(ledger, clock), steps)
    requires i < j < |Final(Initial(ledger, clock), steps).sent|
    requires var sent := Final(Initial(ledger, clock), steps).sent;
             IsRecovery(sent[i]) && IsRecovery(sent[j]) && SentKey(sent[i]) == SentKey(sent[j])
    ensures var t := Final(Initial(ledger, clock), steps);
            && t.sent[j].call < |t.options|
            && 0 <= Delay(t.sent[i])
            && t.sent[j].sentAt - t.sent[i].sentAt >= 0
            && t.sent[j].sentAt - t.sent[i].sentAt >= t.options[t.sent[j].call].staleAfter - Delay(t.sent[i])
  {
    RecordedTimesAreSpaced(ledger, clock, steps, i, j);
    SpacingInvRun(Initial(ledger, clock), steps);
  }
}
