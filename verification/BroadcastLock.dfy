/** The in-process per-address broadcast lock.

    Each `withSender` call is three atomic steps, cut at its two `await`s: Request
    chains the call behind whatever gate the map holds and stores its own gate, Enter
    starts the callback once the awaited gate has settled, Exit settles the call's own
    gate and cleans up the map.  Calls are numbered in call order, a call's gate bears
    the call's number, and a gate is settled exactly when its call is Released. */
module BroadcastLock {
  import opened Text

  datatype Phase = Waiting | Running | Released(threw: bool)

  datatype Call = Call(key: string, prior: Option<nat>, phase: Phase)

  datatype State = State(calls: seq<Call>, locks: map<string, nat>)

  const INITIAL := State([], map[])

  datatype Step =
    | Request(from: string)
    | Enter(call: nat)
    | Exit(call: nat, threw: bool)

  /** The awaited promise has settled: there was none, or its owner released it. */
  predicate Settled(s: State, prior: Option<nat>) {
    prior.Some? ==> prior.value < |s.calls| && s.calls[prior.value].phase.Released?
  }

  predicate Enabled(s: State, step: Step) {
    match step
    case Request(_) => true
    case Enter(c) => c < |s.calls| && s.calls[c].phase.Waiting? && Settled(s, s.calls[c].prior)
    case Exit(c, _) => c < |s.calls| && s.calls[c].phase.Running?
  }

  function Lookup(locks: map<string, nat>, key: string): Option<nat> {
    if key in locks then Some(locks[key]) else None
  }

  function WithPhase(s: State, c: nat, phase: Phase): State
    requires c < |s.calls|
  {
    s.(calls := s.calls[c := s.calls[c].(phase := phase)])
  }

  function Apply(s: State, step: Step): State
    requires Enabled(s, step)
  {
    match step
    case Request(from) =>
      var key := Lower(from);
      State(s.calls + [Call(key, Lookup(s.locks, key), Waiting)], s.locks[key := |s.calls|])
    case Enter(c) => WithPhase(s, c, Running)
    case Exit(c, threw) =>
      var key := s.calls[c].key;
      var t := WithPhase(s, c, Released(threw));
      if Lookup(s.locks, key) == Some(c) then t.(locks := s.locks - {key}) else t
  }

  predicate IsRun(s: State, steps: seq<Step>)
    decreases |steps|
  {
    steps == [] || (Enabled(s, steps[0]) && IsRun(Apply(s, steps[0]), steps[1..]))
  }

  function Final(s: State, steps: seq<Step>): State
    requires IsRun(s, steps)
    decreases |steps|
  {
    if steps == [] then s else Final(Apply(s, steps[0]), steps[1..])
  }

  // ---------------------------------------------------------------- the invariant

  /** Per address, a call that has started has only released calls before it. */
  ghost predicate Ordered(s: State) {
    forall i, j :: 0 <= i < j < |s.calls| && s.calls[i].key == s.calls[j].key && !s.calls[j].phase.Waiting?
      ==> s.calls[i].phase.Released?
  }

  /** A call waits for its immediate predecessor at its address, or had none unreleased. */
  ghost predicate Chained(s: State) {
    forall j :: 0 <= j < |s.calls| ==> ChainedAt(s, j)
  }

  ghost predicate ChainedAt(s: State, j: nat)
    requires j < |s.calls|
  {
    match s.calls[j].prior
    case None => forall i :: 0 <= i < j && s.calls[i].key == s.calls[j].key ==> s.calls[i].phase.Released?
    case Some(p) =>
      && p < j
      && s.calls[p].key == s.calls[j].key
      && forall i :: p < i < j ==> s.calls[i].key != s.calls[j].key
  }

  /** The map holds an address exactly while it has an unreleased call, and then holds
      the gate of its last caller. */
  ghost predicate Tracked(s: State) {
    && (forall k :: k in s.locks ==> HoldsLast(s, k))
    && (forall i :: 0 <= i < |s.calls| && !s.calls[i].phase.Released? ==> s.calls[i].key in s.locks)
  }

  ghost predicate HoldsLast(s: State, k: string)
    requires k in s.locks
  {
    && s.locks[k] < |s.calls|
    && s.calls[s.locks[k]].key == k
    && !s.calls[s.locks[k]].phase.Released?
    && forall i :: s.locks[k] < i < |s.calls| ==> s.calls[i].key != k
  }

  ghost predicate Inv(s: State) {
    Ordered(s) && Chained(s) && Tracked(s)
  }

  /** An enabled call has only released calls of its address before it. */
  lemma EnabledIsOldest(s: State, c: nat)
    requires Inv(s) && Enabled(s, Enter(c))
    ensures forall i :: 0 <= i < c && s.calls[i].key == s.calls[c].key ==> s.calls[i].phase.Released?
  {
    assert ChainedAt(s, c);
  }

  lemma InvRequest(s: State, from: string)
    requires Inv(s)
    ensures Inv(Apply(s, Request(from)))
  {
    var t := Apply(s, Request(from));
    var n, key := |s.calls|, Lower(from);
    forall j | 0 <= j < |t.calls|
      ensures ChainedAt(t, j)
    {
      if j < n {
        assert ChainedAt(s, j);
      } else if key in s.locks {
        assert HoldsLast(s, key);
      }
    }
    forall k | k in t.locks
      ensures HoldsLast(t, k)
    {
      if k != key {
        assert HoldsLast(s, k);
      }
    }
  }

  lemma InvEnter(s: State, c: nat)
    requires Inv(s) && Enabled(s, Enter(c))
    ensures Inv(Apply(s, Enter(c)))
  {
    var t := Apply(s, Enter(c));
    EnabledIsOldest(s, c);
    forall j | 0 <= j < |t.calls|
      ensures ChainedAt(t, j)
    {
      assert ChainedAt(s, j);
    }
    forall k | k in t.locks
      ensures HoldsLast(t, k)
    {
      assert HoldsLast(s, k);
    }
  }

  lemma ExitKeepsChained(s: State, c: nat, threw: bool)
    requires Inv(s) && Enabled(s, Exit(c, threw))
    ensures Chained(Apply(s, Exit(c, threw)))
  {
    var t := Apply(s, Exit(c, threw));
    forall j | 0 <= j < |t.calls|
      ensures ChainedAt(t, j)
    {
      assert ChainedAt(s, j);
    }
  }

  lemma ExitKeepsTracked(s: State, c: nat, threw: bool)
    requires Inv(s) && Enabled(s, Exit(c, threw))
    ensures Tracked(Apply(s, Exit(c, threw)))
  {
    var t := Apply(s, Exit(c, threw));
    var key := s.calls[c].key;
    assert HoldsLast(s, key);
    forall k | k in t.locks
      ensures HoldsLast(t, k)
    {
      assert HoldsLast(s, k);
    }
    forall i | 0 <= i < |t.calls| && !t.calls[i].phase.Released?
      ensures t.calls[i].key in t.locks
    {
      if t.calls[i].key == key {
        assert i < c ==> s.calls[i].phase.Released?;
        assert s.locks[key] >= i;
      }
    }
  }

  lemma InvExit(s: State, c: nat, threw: bool)
    requires Inv(s) && Enabled(s, Exit(c, threw))
    ensures Inv(Apply(s, Exit(c, threw)))
  {
    ExitKeepsChained(s, c, threw);
    ExitKeepsTracked(s, c, threw);
  }

  lemma InvStep(s: State, step: Step)
    requires Inv(s) && Enabled(s, step)
    ensures Inv(Apply(s, step))
  {
    match step
    case Request(from) => InvRequest(s, from);
    case Enter(c) => InvEnter(s, c);
    case Exit(c, threw) => InvExit(s, c, threw);
  }

  lemma {:induction false} InvRun(s: State, steps: seq<Step>)
    requires Inv(s) && IsRun(s, steps)
    ensures Inv(Final(s, steps))
    decreases |steps|
  {
    if steps != [] {
      InvStep(s, steps[0]);
      InvRun(Apply(s, steps[0]), steps[1..]);
    }
  }

  // ---------------------------------------------------------------- exclusion, order and cleanup

  /** At most one callback per address is running, in every interleaving of calls. */
  lemma MutualExclusion(steps: seq<Step>, i: nat, j: nat)
    requires IsRun(INITIAL, steps)
    requires i < |Final(INITIAL, steps).calls| && j < |Final(INITIAL, steps).calls|
    requires Final(INITIAL, steps).calls[i].phase.Running? && Final(INITIAL, steps).calls[j].phase.Running?
    requires Final(INITIAL, steps).calls[i].key == Final(INITIAL, steps).calls[j].key
    ensures i == j
  {
    InvRun(INITIAL, steps);
  }

  /** The calls of address `k`, in call order. */
  ghost function Called(calls: seq<Call>, k: string): seq<nat> {
    if calls == [] then []
    else
      var n := |calls| - 1;
      Called(calls[..n], k) + (if calls[n].key == k then [n] else [])
  }

  /** Those of them whose callback has started. */
  ghost function Begun(calls: seq<Call>, k: string): seq<nat> {
    if calls == [] then []
    else
      var n := |calls| - 1;
      Begun(calls[..n], k) + (if calls[n].key == k && !calls[n].phase.Waiting? then [n] else [])
  }

  /** The callbacks of address `k` started by a run, in the order they start. */
  ghost function Entered(s: State, steps: seq<Step>, k: string): seq<nat>
    requires IsRun(s, steps)
    decreases |steps|
  {
    if steps == [] then [] else Starts(s, steps[0], k) + Entered(Apply(s, steps[0]), steps[1..], k)
  }

  ghost function Starts(s: State, step: Step, k: string): seq<nat>
    requires Enabled(s, step)
  {
    if step.Enter? && s.calls[step.call].key == k then [step.call] else []
  }

  ghost predicate StartedPrefix(calls: seq<Call>, k: string) {
    forall i, j :: 0 <= i < j < |calls| && calls[i].key == k == calls[j].key && !calls[j].phase.Waiting?
      ==> !calls[i].phase.Waiting?
  }

  lemma {:induction false} BegunIsPrefix(calls: seq<Call>, k: string)
    requires StartedPrefix(calls, k)
    ensures Begun(calls, k) <= Called(calls, k)
    ensures (forall i :: 0 <= i < |calls| && calls[i].key == k ==> !calls[i].phase.Waiting?)
              ==> Begun(calls, k) == Called(calls, k)
  {
    if calls != [] {
      BegunIsPrefix(calls[..|calls| - 1], k);
    }
  }

  /** Starting the oldest waiting call of `k` appends it to the started calls; any other
      change of phase, and changes at other addresses, leave them as they are. */
  lemma {:induction false} BegunUpdate(calls: seq<Call>, c: nat, phase: Phase, k: string)
    requires c < |calls| && !phase.Waiting?
    requires calls[c].phase.Waiting? ==> forall j :: c < j < |calls| && calls[j].key == calls[c].key ==>
        calls[j].phase.Waiting?
    ensures var updated := calls[c := calls[c].(phase := phase)];
            Begun(updated, k) == Begun(calls, k) + (if calls[c].key == k && calls[c].phase.Waiting? then [c] else [])
  {
    var n := |calls| - 1;
    var updated := calls[c := calls[c].(phase := phase)];
    if c == n {
      assert updated[..n] == calls[..n];
    } else {
      assert updated[..n] == calls[..n][c := calls[..n][c].(phase := phase)];
      BegunUpdate(calls[..n], c, phase, k);
    }
  }

  lemma BegunStep(s: State, step: Step, k: string)
    requires Inv(s) && Enabled(s, step)
    ensures Begun(Apply(s, step).calls, k) == Begun(s.calls, k) + Starts(s, step, k)
  {
    match step
    case Request(from) =>
      assert Apply(s, step).calls[..|s.calls|] == s.calls;
    case Enter(c) => BegunUpdate(s.calls, c, Running, k);
    case Exit(c, threw) => BegunUpdate(s.calls, c, Released(threw), k);
  }

  lemma ConcatAssociates(a: seq<nat>, b: seq<nat>, c: seq<nat>)
    ensures (a + b) + c == a + (b + c)
  {
  }

  lemma {:induction false} BegunRun(s: State, steps: seq<Step>, k: string)
    requires Inv(s) && IsRun(s, steps)
    ensures Begun(Final(s, steps).calls, k) == Begun(s.calls, k) + Entered(s, steps, k)
    decreases |steps|
  {
    if steps == [] {
      assert Entered(s, steps, k) == [];
    } else {
      var next, rest := Apply(s, steps[0]), steps[1..];
      InvStep(s, steps[0]);
      calc {
        Begun(Final(s, steps).calls, k);
        Begun(Final(next, rest).calls, k);
        { BegunRun(next, rest, k); }
        Begun(next.calls, k) + Entered(next, rest, k);
        { BegunStep(s, steps[0], k); }
        (Begun(s.calls, k) + Starts(s, steps[0], k)) + Entered(next, rest, k);
        { ConcatAssociates(Begun(s.calls, k), Starts(s, steps[0], k), Entered(next, rest, k)); }
        Begun(s.calls, k) + (Starts(s, steps[0], k) + Entered(next, rest, k));
        Begun(s.calls, k) + Entered(s, steps, k);
      }
    }
  }

  /** In every run, however earlier callbacks ended, the callbacks of an address start in
      call order without gaps: the order of starts is a prefix of the order of calls. */
  lemma FifoOrder(steps: seq<Step>, k: string)
    requires IsRun(INITIAL, steps)
    ensures Entered(INITIAL, steps, k) <= Called(Final(INITIAL, steps).calls, k)
  {
    InvRun(INITIAL, steps);
    BegunRun(INITIAL, steps, k);
    BegunIsPrefix(Final(INITIAL, steps).calls, k);
  }

  /** Exact cleanup: in every reachable state an address is in the map exactly while it
      has an unreleased call, and its entry is the gate of its last caller. */
  lemma ExactCleanup(steps: seq<Step>, k: string)
    requires IsRun(INITIAL, steps)
    ensures var s := Final(INITIAL, steps);
            && (k in s.locks <==> exists i :: 0 <= i < |s.calls| && s.calls[i].key == k && !s.calls[i].phase.Released?)
            && (k in s.locks ==> Called(s.calls, k) != [] && s.locks[k] == Called(s.calls, k)[|Called(s.calls, k)| - 1])
  {
    var s := Final(INITIAL, steps);
    InvRun(INITIAL, steps);
    if k in s.locks {
      assert HoldsLast(s, k);
      LastCalled(s.calls, k, s.locks[k]);
    }
  }

  lemma {:induction false} LastCalled(calls: seq<Call>, k: string, last: nat)
    requires last < |calls| && calls[last].key == k
    requires forall i :: last < i < |calls| ==> calls[i].key != k
    ensures Called(calls, k) != [] && Called(calls, k)[|Called(calls, k)| - 1] == last
  {
    if last < |calls| - 1 {
      LastCalled(calls[..|calls| - 1], k, last);
    }
  }

  // ---------------------------------------------------------------- progress

  predicate Unreleased(s: State, k: string) {
    exists i :: 0 <= i < |s.calls| && s.calls[i].key == k && !s.calls[i].phase.Released?
  }

  predicate RunningAt(s: State, k: string) {
    exists i :: 0 <= i < |s.calls| && s.calls[i].key == k && s.calls[i].phase.Running?
  }

  lemma {:induction false} OldestUnreleased(s: State, k: string, from: nat) returns (c: nat)
    requires from <= |s.calls|
    requires forall i :: 0 <= i < from && s.calls[i].key == k ==> s.calls[i].phase.Released?
    requires Unreleased(s, k)
    ensures c < |s.calls| && s.calls[c].key == k && !s.calls[c].phase.Released?
    ensures forall i :: 0 <= i < c && s.calls[i].key == k ==> s.calls[i].phase.Released?
    decreases |s.calls| - from
  {
    if s.calls[from].key == k && !s.calls[from].phase.Released? {
      c := from;
    } else {
      c := OldestUnreleased(s, k, from + 1);
    }
  }

  /** A waiting address with nothing running has exactly one call that may start. */
  lemma ExactlyOneEnabled(s: State, k: string) returns (c: nat)
    requires Inv(s) && Unreleased(s, k) && !RunningAt(s, k)
    ensures Enabled(s, Enter(c)) && s.calls[c].key == k
    ensures forall d: nat :: Enabled(s, Enter(d)) && s.calls[d].key == k ==> d == c
  {
    c := OldestUnreleased(s, k, 0);
    assert s.calls[c].phase.Waiting?;
    assert ChainedAt(s, c);
    forall d: nat | Enabled(s, Enter(d)) && s.calls[d].key == k
      ensures d == c
    {
      EnabledIsOldest(s, d);
    }
  }

  ghost function Work(calls: seq<Call>): nat {
    if calls == [] then 0
    else
      var n := |calls| - 1;
      Work(calls[..n]) + match calls[n].phase { case Waiting => 2 case Running => 1 case Released(_) => 0 }
  }

  lemma {:induction false} WorkUpdate(calls: seq<Call>, c: nat, phase: Phase)
    requires c < |calls|
    requires (calls[c].phase.Waiting? && phase.Running?) || (calls[c].phase.Running? && phase.Released?)
    ensures Work(calls[c := calls[c].(phase := phase)]) == Work(calls) - 1
  {
    var n := |calls| - 1;
    var updated := calls[c := calls[c].(phase := phase)];
    if c == n {
      assert updated[..n] == calls[..n];
    } else {
      assert updated[..n] == calls[..n][c := calls[..n][c].(phase := phase)];
      WorkUpdate(calls[..n], c, phase);
    }
  }

  ghost predicate NoRequests(steps: seq<Step>) {
    forall i :: 0 <= i < |steps| ==> !steps[i].Request?
  }

  ghost predicate Quiet(s: State) {
    forall step: Step :: Enabled(s, step) ==> step.Request?
  }

  lemma {:induction false} WorkRun(s: State, steps: seq<Step>)
    requires IsRun(s, steps) && NoRequests(steps)
    ensures |steps| + Work(Final(s, steps).calls) == Work(s.calls)
    decreases |steps|
  {
    if steps != [] {
      var step := steps[0];
      if step.Enter? {
        WorkUpdate(s.calls, step.call, Running);
      } else {
        WorkUpdate(s.calls, step.call, Released(step.threw));
      }
      WorkRun(Apply(s, step), steps[1..]);
    }
  }

  lemma SomethingCanMove(s: State, i: nat) returns (step: Step)
    requires Inv(s) && i < |s.calls| && !s.calls[i].phase.Released?
    ensures Enabled(s, step) && !step.Request?
  {
    var k := s.calls[i].key;
    if r :| 0 <= r < |s.calls| && s.calls[r].key == k && s.calls[r].phase.Running? {
      step := Exit(r, false);
    } else {
      var c := ExactlyOneEnabled(s, k);
      step := Enter(c);
    }
  }

  lemma EntryMeansUnreleased(s: State, k: string)
    requires Inv(s) && k in s.locks
    ensures Unreleased(s, k)
  {
    assert HoldsLast(s, k);
  }

  lemma QuietIsFinished(s: State)
    requires Inv(s)
    ensures Quiet(s) <==> Work(s.calls) == 0
    ensures Quiet(s) ==> s.locks == map[] && forall i :: 0 <= i < |s.calls| ==> s.calls[i].phase.Released?
  {
    WorkZero(s.calls);
    if i :| 0 <= i < |s.calls| && !s.calls[i].phase.Released? {
      var step := SomethingCanMove(s, i);
      assert !Quiet(s);
    } else if k :| k in s.locks {
      EntryMeansUnreleased(s, k);
    }
  }

  /** Without further calls every step uses up one unit of work, so a run is never longer
      than the work left, and nothing can move exactly when it is used up; then every call
      is released and the map is empty.  Hence every finite set of calls finishes, under
      any scheduling. */
  lemma EveryCallFinishes(s: State, steps: seq<Step>)
    requires Inv(s) && IsRun(s, steps) && NoRequests(steps)
    ensures |steps| <= Work(s.calls)
    ensures Quiet(Final(s, steps)) <==> |steps| == Work(s.calls)
    ensures Quiet(Final(s, steps)) ==>
              && Final(s, steps).locks == map[]
              && forall i :: 0 <= i < |Final(s, steps).calls| ==> Final(s, steps).calls[i].phase.Released?
  {
    InvRun(s, steps);
    WorkRun(s, steps);
    QuietIsFinished(Final(s, steps));
  }

  lemma {:induction false} WorkZero(calls: seq<Call>)
    ensures Work(calls) == 0 <==> forall i :: 0 <= i < |calls| ==> calls[i].phase.Released?
  {
    if calls != [] {
      var n := |calls| - 1;
      WorkZero(calls[..n]);
      assert forall i :: 0 <= i < n ==> calls[..n][i] == calls[i];
    }
  }

  /** The address a step works on. */
  function KeyOf(s: State, step: Step): string
    requires Enabled(s, step)
  {
    match step
    case Request(from) => Lower(from)
    case Enter(c) => s.calls[c].key
    case Exit(c, _) => s.calls[c].key
  }

  /** Other addresses never block an address: a step elsewhere leaves its map entry, its
      calls and which of them may start or end exactly as they were. */
  lemma OtherAddressesDoNotInterfere(s: State, step: Step, k: string, c: nat)
    requires Inv(s) && Enabled(s, step) && KeyOf(s, step) != k
    ensures Lookup(Apply(s, step).locks, k) == Lookup(s.locks, k)
    ensures c < |s.calls| && s.calls[c].key == k ==>
              && Apply(s, step).calls[c] == s.calls[c]
              && (Enabled(Apply(s, step), Enter(c)) <==> Enabled(s, Enter(c)))
              && (forall threw :: Enabled(Apply(s, step), Exit(c, threw)) <==> Enabled(s, Exit(c, threw)))
  {
    if c < |s.calls| && s.calls[c].key == k {
      assert ChainedAt(s, c);
    }
  }

  // ---------------------------------------------------------------- the object

  /** The lock as an object: the closed-over map and the promises of the calls made so far. */
  class EoaBroadcastLock {
    var locks: map<string, nat>
    var calls: seq<Call>

    ghost function Value(): State
      reads this
    {
      State(calls, locks)
    }

    ghost predicate Valid()
      reads this
    {
      Inv(Value())
    }

    constructor ()
      ensures Valid() && Value() == INITIAL
    {
      locks, calls := map[], [];
    }

    /** `withSender` up to its first `await`. */
    method Request(from: string) returns (gate: nat)
      requires Valid()
      modifies this
      ensures Valid() && Value() == Apply(old(Value()), Step.Request(from))
      ensures gate == |old(calls)|
    {
      InvStep(Value(), Step.Request(from));
      var key := Lower(from);
      var prior := if key in locks then Some(locks[key]) else None;
      gate := |calls|;
      locks := locks[key := gate];
      calls := calls + [Call(key, prior, Waiting)];
    }

    /** The callback starts if the awaited gate has settled. */
    method TryEnter(call: nat) returns (entered: bool)
      requires Valid() && call < |calls| && calls[call].phase.Waiting?
      modifies this
      ensures Valid()
      ensures entered == old(Enabled(Value(), Enter(call)))
      ensures Value() == if entered then Apply(old(Value()), Enter(call)) else old(Value())
    {
      var prior := calls[call].prior;
      assert ChainedAt(Value(), call);
      entered := prior.None? || calls[prior.value].phase.Released?;
      if entered {
        InvStep(Value(), Enter(call));
        calls := calls[call := calls[call].(phase := Running)];
      }
    }

    /** The `finally` block: release, then delete the map entry if it is still our gate. */
    method Exit(call: nat, threw: bool)
      requires Valid() && call < |calls| && calls[call].phase.Running?
      modifies this
      ensures Valid() && Value() == Apply(old(Value()), Step.Exit(call, threw))
    {
      InvStep(Value(), Step.Exit(call, threw));
      var key := calls[call].key;
      calls := calls[call := calls[call].(phase := Released(threw))];
      if key in locks && locks[key] == call {
        locks := locks - {key};
      }
    }
  }
}
