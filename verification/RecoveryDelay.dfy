/** Exactly how close two recoveries at one nonce can come: every gap that the bound of
    RecoverySpacing leaves open is reached by a run. */
module RecoveryDelay {
  import opened Text
  import Fees
  import opened Ledger
  import opened Worker
  import opened Broadcaster
  import opened RecoverySpacing
  import Lock = BroadcastLock

  /** A run in which the wallet takes two recoveries at one nonce: the earlier one handed over
      `delay` after its scan, the later call with stale time `stale`, and `gap` between them. */
  ghost predicate HasGap(
    ledger: Entries, clock: int, steps: seq<Step>, i: nat, j: nat, stale: int, delay: int, gap: int)
  {
    && IsRun(Initial(ledger, clock), steps) && RecordingRun(Initial(ledger, clock), steps)
    && var t := Final(Initial(ledger, clock), steps);
       && i < j < |t.sent|
       && IsRecovery(t.sent[i]) && IsRecovery(t.sent[j]) && SentKey(t.sent[i]) == SentKey(t.sent[j])
       && t.sent[j].call < |t.options|
       && t.options[t.sent[j].call].staleAfter == stale
       && Delay(t.sent[i]) == delay
       && t.sent[j].sentAt - t.sent[i].sentAt == gap
  }

  ghost predicate CanHaveGap(stale: int, delay: int, gap: int) {
    exists ledger, clock, steps, i, j :: HasGap(ledger, clock, steps, i, j, stale, delay, gap)
  }

  // ---------------------------------------------------------------- building runs

  ghost predicate Reaches(ledger: Entries, clock: int, steps: seq<Step>, s: State) {
    && IsRun(Initial(ledger, clock), steps) && RecordingRun(Initial(ledger, clock), steps)
    && Final(Initial(ledger, clock), steps) == s
  }

  lemma {:induction false} RecordingExtends(s: State, steps: seq<Step>, step: Step)
    requires IsRun(s, steps) && RecordingRun(s, steps) && Enabled(Final(s, steps), step)
    requires RecordsRecovery(Final(s, steps), step)
    ensures IsRun(s, steps + [step]) && RecordingRun(s, steps + [step])
    decreases |steps|
  {
    RunExtends(s, steps, step);
    if steps == [] {
      assert [step][1..] == [];
    } else {
      RecordingExtends(Apply(s, steps[0]), steps[1..], step);
      assert (steps + [step])[0] == steps[0] && (steps + [step])[1..] == steps[1..] + [step];
    }
  }

  lemma Extend(ledger: Entries, clock: int, steps: seq<Step>, s: State, step: Step) returns (steps': seq<Step>)
    requires Reaches(ledger, clock, steps, s) && Enabled(s, step) && RecordsRecovery(s, step)
    ensures Reaches(ledger, clock, steps', Apply(s, step))
  {
    RunExtends(Initial(ledger, clock), steps, step);
    RecordingExtends(Initial(ledger, clock), steps, step);
    steps' := steps + [step];
  }

  const FROM := "0xa"

  function CallerWith(stale: int): Options {
    Options(1, FROM, None, Fees.EMPTY, 6, stale)
  }

  /** Nobody holds or awaits the lock. */
  ghost predicate AtRest(s: State) {
    Sized(s) && s.lock.locks == map[] && forall c :: 0 <= c < |s.lock.calls| ==> s.lock.calls[c].phase.Released?
  }

  /** `s` with one more call, which holds the lock and is at worker state `w`. */
  function Inside(s: State, stale: int, w: Worker, l: Entries, sent: seq<Sent>, clock: int): State {
    State(Lock.State(s.lock.calls + [Lock.Call(FROM, None, Lock.Running)], map[FROM := |s.lock.calls|]),
          s.options + [CallerWith(stale)], s.workers + [w], l, sent, clock)
  }

  lemma Enters(ledger: Entries, clock: int, steps: seq<Step>, s: State, stale: int) returns (steps': seq<Step>)
    requires Reaches(ledger, clock, steps, s) && AtRest(s)
    ensures Reaches(ledger, clock, steps', Inside(s, stale, START, s.ledger, s.sent, s.clock))
  {
    var c := |s.lock.calls|;
    var call := Call(FROM, CallerWith(stale));
    assert Lower(FROM) == FROM;
    steps' := Extend(ledger, clock, steps, s, call);
    var called := Apply(s, call);
    steps' := Extend(ledger, clock, steps', called, Enter(c));
    assert Apply(called, Enter(c)).lock.calls == s.lock.calls + [Lock.Call(FROM, None, Lock.Running)];
    assert Apply(called, Enter(c)) == Inside(s, stale, START, s.ledger, s.sent, s.clock);
  }

  /** One action of the call inside. */
  lemma Acts(
    ledger: Entries, clock: int, steps: seq<Step>, s: State, stale: int, w: Worker, l: Entries, sent: seq<Sent>,
    now: int,
    a: Action, w': Worker, l': Entries)
    returns (steps': seq<Step>)
    requires |s.lock.calls| == |s.options| == |s.workers|
    requires Reaches(ledger, clock, steps, Inside(s, stale, w, l, sent, now))
    requires Next(CallerWith(stale), w, l, a) == Some(Config(w', l'))
    requires a.ReadCounts? || a.RecordPayload? ==> a.now == now
    requires w.pc.RecoveryRecord? ==> a.RecordRecovery?
    ensures var e := Emits(CallerWith(stale), w, a);
            var log := if e.Some? then [Sent(|s.workers|, 1, FROM, e.value, now)] else [];
            Reaches(ledger, clock, steps', Inside(s, stale, w', l', sent + log, now))
  {
    var c, at := |s.workers|, Inside(s, stale, w, l, sent, now);
    steps' := Extend(ledger, clock, steps, at, Act(c, a));
    assert at.workers[c := w'] == s.workers + [w'];
  }

  lemma Waits(
    ledger: Entries, clock: int, steps: seq<Step>, s: State, stale: int, w: Worker, l: Entries, sent: seq<Sent>,
    now: int, ms: nat)
    returns (steps': seq<Step>)
    requires |s.lock.calls| == |s.options| == |s.workers|
    requires Reaches(ledger, clock, steps, Inside(s, stale, w, l, sent, now))
    ensures Reaches(ledger, clock, steps', Inside(s, stale, w, l, sent, now + ms))
  {
    steps' := Extend(ledger, clock, steps, Inside(s, stale, w, l, sent, now), Tick(ms));
  }

  lemma Leaves(
    ledger: Entries, clock: int, steps: seq<Step>, s: State, stale: int, w: Worker, l: Entries, sent: seq<Sent>,
    now: int)
    returns (steps': seq<Step>, t: State)
    requires Reaches(ledger, clock, steps, Inside(s, stale, w, l, sent, now)) && AtRest(s) && w.pc.Done?
    ensures Reaches(ledger, clock, steps', t) && AtRest(t)
    ensures t.options == s.options + [CallerWith(stale)] && t.ledger == l && t.sent == sent && t.clock == now
  {
    var c, at := |s.workers|, Inside(s, stale, w, l, sent, now);
    steps' := Extend(ledger, clock, steps, at, Exit(c));
    t := Apply(at, Exit(c));
  }

  // ---------------------------------------------------------------- one recovery

  const NONCE: nat := 5
  const KEY := Key(1, FROM, NONCE)

  function Point(pc: Pc): Worker {
    START.(pc := pc)
  }

  function Bid(stuck: Entry): Fees.Snapshot {
    Fees.ResultForAttempt(Fees.EstimateFailed, Fees.GasPriceFailed, 1, Some(stuck.fees), true).overrides
  }

  /** The recovery sent over `stuck` by a scan at time `at`, handed over `delay` later. */
  function Recovered(s: State, stuck: Entry, hash: nat, delay: nat): Sent {
    Sent(|s.workers|, 1, FROM, Broadcast(Recovery, NONCE, WithoutConflict(Bid(stuck)), true, Some(hash), s.clock),
        s.clock + delay)
  }

  /** A call scans, finds the stuck entry, and takes `delay` over its fee query. */
  lemma Scans(ledger: Entries, clock: int, steps: seq<Step>, s: State, stale: int, delay: nat, stuck: Entry)
    returns (steps': seq<Step>)
    requires Reaches(ledger, clock, steps, s) && AtRest(s) && Stale(s.ledger, KEY, s.clock, stale)
    requires stuck == s.ledger[KEY]
    ensures Reaches(ledger, clock, steps',
                    Inside(s, stale, Point(RecoverySend(NONCE, s.clock, stuck, Bid(stuck))), s.ledger, s.sent,
                        s.clock + delay))
  {
    var l, now := s.ledger, s.clock;
    var scanning, quoting := Point(Scan(NONCE, NONCE + 1, now)), Point(RecoveryFees(NONCE, now, stuck));
    assert s.sent + [] == s.sent;
    steps' := Enters(ledger, clock, steps, s, stale);
    steps' := Acts(ledger, clock, steps', s, stale, START, l, s.sent, now, ReadCounts(NONCE + 1, NONCE, now),
        scanning, l);
    steps' := Acts(ledger, clock, steps', s, stale, scanning, l, s.sent, now, ScanEntry, quoting, l);
    steps' := Waits(ledger, clock, steps', s, stale, quoting, l, s.sent, now, delay);
    steps' := Acts(ledger, clock, steps', s, stale, quoting, l, s.sent, now + delay,
                   QuoteRecovery(Fees.EstimateFailed, Fees.GasPriceFailed),
                   Point(RecoverySend(NONCE, now, stuck, Bid(stuck))), l);
  }

  /** The call hands its recovery over and records it. */
  lemma Sends(
    ledger: Entries, clock: int, steps: seq<Step>, s: State, stale: int, delay: nat, stuck: Entry, hash: nat,
    bid: Fees.Snapshot, recorded: Entries)
    returns (steps': seq<Step>)
    requires AtRest(s) && bid == Bid(stuck)
    requires recorded == s.ledger[KEY := Entry(Recovery, hash, s.clock, bid, None)]
    requires Reaches(ledger, clock, steps,
                     Inside(s, stale, Point(RecoverySend(NONCE, s.clock, stuck, bid)), s.ledger, s.sent,
                         s.clock + delay))
    ensures Reaches(ledger, clock, steps',
                    Inside(s, stale, Point(RecoveryWait(NONCE, s.clock)), recorded,
                           s.sent + [Recovered(s, stuck, hash, delay)], s.clock + delay))
  {
    var now, later := s.clock, s.clock + delay;
    var sent := s.sent + [Recovered(s, stuck, hash, delay)];
    var recording := Point(RecoveryRecord(NONCE, now, hash, bid));
    assert sent + [] == sent;
    steps' := Acts(ledger, clock, steps, s, stale, Point(RecoverySend(NONCE, now, stuck, bid)), s.ledger, s.sent, later,
                   SendRecovery(hash), recording, s.ledger);
    steps' := Acts(ledger, clock, steps', s, stale, recording, s.ledger, sent, later,
                   RecordRecovery, Point(RecoveryWait(NONCE, now)), recorded);
  }

  /** The call gets no receipt, and leaves. */
  lemma GivesUp(
    ledger: Entries, clock: int, steps: seq<Step>, s: State, stale: int, at: int, l: Entries, sent: seq<Sent>, now: int)
    returns (steps': seq<Step>, t: State)
    requires AtRest(s)
    requires Reaches(ledger, clock, steps, Inside(s, stale, Point(RecoveryWait(NONCE, at)), l, sent, now))
    ensures Reaches(ledger, clock, steps', t) && AtRest(t)
    ensures t.options == s.options + [CallerWith(stale)] && t.ledger == l && t.sent == sent && t.clock == now
  {
    var failure := Failure(false, false);
    var done := Point(Done(Threw(failure)));
    assert sent + [] == sent;
    steps' := Acts(ledger, clock, steps, s, stale, Point(RecoveryWait(NONCE, at)), l, sent, now, Fail(failure),
        done, l);
    steps', t := Leaves(ledger, clock, steps', s, stale, done, l, sent, now);
  }

  /** A call that recovers the stuck nonce, taking `delay` over its fee query, and then fails
      to get a receipt. */
  lemma RecoverOnce(ledger: Entries, clock: int, steps: seq<Step>, s: State, stale: int, delay: nat, hash: nat)
    returns (steps': seq<Step>, t: State)
    requires Reaches(ledger, clock, steps, s) && AtRest(s) && Stale(s.ledger, KEY, s.clock, stale)
    ensures Reaches(ledger, clock, steps', t) && AtRest(t)
    ensures t.options == s.options + [CallerWith(stale)] && t.clock == s.clock + delay
    ensures t.sent == s.sent + [Recovered(s, s.ledger[KEY], hash, delay)]
    ensures Pending(t.ledger, KEY) && t.ledger[KEY].submittedAt == s.clock
  {
    var stuck := s.ledger[KEY];
    steps' := Scans(ledger, clock, steps, s, stale, delay, stuck);
    var recorded := s.ledger[KEY := Entry(Recovery, hash, s.clock, Bid(stuck), None)];
    steps' := Sends(ledger, clock, steps', s, stale, delay, stuck, hash, Bid(stuck), recorded);
    steps', t := GivesUp(ledger, clock, steps', s, stale, s.clock, recorded,
                         s.sent + [Recovered(s, stuck, hash, delay)], s.clock + delay);
  }

  // ---------------------------------------------------------------- the gaps

  /** Two recoveries of one nonce, the first delayed by `delay`, handed over `gap` apart. */
  lemma GapIsReached(stale: int, delay: nat, gap: nat)
    requires gap >= stale - delay
    ensures CanHaveGap(stale, delay, gap)
  {
    var ledger: Entries := map[KEY := Entry(Payload, 0, -stale, Fees.EMPTY, None)];
    var s := Initial(ledger, 0);
    var steps, t := RecoverOnce(ledger, 0, [], s, stale, delay, 1);
    steps := Extend(ledger, 0, steps, t, Tick(gap));
    var ticked := Apply(t, Tick(gap));
    var last;
    steps, last := RecoverOnce(ledger, 0, steps, ticked, stale, 0, 2);
    assert last.sent[0] == Recovered(s, s.ledger[KEY], 1, delay);
    assert last.sent[1] == Recovered(ticked, ticked.ledger[KEY], 2, 0);
    assert HasGap(ledger, 0, steps, 0, 1, stale, delay, gap);
  }

  /** Over all runs, two recoveries of one nonce can be `gap` apart, the first delayed by
      `delay`, exactly if time does not run backwards and the gap and the delay together reach
      the later call's stale time: the bound is attained. */
  lemma GapIffBound(stale: int, delay: int, gap: int)
    ensures CanHaveGap(stale, delay, gap) <==> delay >= 0 && gap >= 0 && gap >= stale - delay
  {
    if ledger, clock, steps, i, j :| HasGap(ledger, clock, steps, i, j, stale, delay, gap) {
      RecoveriesAreSpaced(ledger, clock, steps, i, j);
    } else if delay >= 0 && gap >= 0 && gap >= stale - delay {
      GapIsReached(stale, delay, gap);
    }
  }

  /** Recoveries the first of which is delayed by `delay` are always a stale time apart
      exactly if that delay is zero (or the stale time is not positive). */
  lemma SpacedIffNoDelay(stale: int, delay: nat)
    ensures (forall gap :: CanHaveGap(stale, delay, gap) ==> gap >= stale) <==> delay == 0 || stale <= 0
  {
    forall gap
      ensures CanHaveGap(stale, delay, gap) <==> gap >= 0 && gap >= stale - delay
    {
      GapIffBound(stale, delay, gap);
    }
    if delay > 0 && stale > 0 {
      var least := if stale > delay then stale - delay else 0;
      assert CanHaveGap(stale, delay, least);
    }
  }

  /** With the default stale time of two minutes: recoveries one millisecond apart. */
  lemma OneMillisecondApart()
    ensures CanHaveGap(120000, 119999, 1)
  {
    GapIffBound(120000, 119999, 1);
  }
}
