/** The durable pilot run: solve lanes that save a patch and a placeholder record before
    queueing a grade, one serial grade queue, and crashes that keep only the disk. */
module PilotRun {
  import opened Text
  import Specs = PilotSpecs

  datatype Status = Graded | Ungradeable | SolveError | GradeError

  /** An attempt record; `hasPatch` says that it carries the path of its saved patch. */
  datatype Record = Record(status: Status, passed: Option<bool>, cost: real, hasPatch: bool, error: Option<string>)

  /** Attempts, their records and their patch files all go by the attempt key; `rows` holds
      the ids of the instances that have a frozen row. */
  datatype Disk = Disk(records: map<string, Record>, patches: map<string, string>, rows: set<string>)

  /** The frozen row of an attempt's instance, which its key names as arm names hold no colon. */
  predicate HasRow(d: Disk, key: string) {
    Specs.InstanceOf(key) in d.rows
  }

  const PENDING :=
    "grade pending (pipeline interrupted before grading; re-run with --retry-errors to regrade from the saved patch)"

  function Placeholder(cost: real): Record {
    Record(GradeError, None, cost, true, Some(PENDING))
  }

  /** `recordFromError` for a failed solve */
  function SolveFailure(error: string): Record {
    Record(SolveError, None, 0.0, false, Some(error))
  }

  // ---------------------------------------------------------------- selection

  predicate IsRetryable(r: Record) {
    r.status == SolveError || r.status == GradeError || (r.status == Ungradeable && r.hasPatch)
  }

  predicate Runnable(records: map<string, Record>, retryErrors: bool, key: string) {
    key !in records || (retryErrors && IsRetryable(records[key]))
  }

  function Filtered(specs: seq<string>, records: map<string, Record>, retryErrors: bool): seq<string> {
    if specs == [] then []
    else
      Filtered(specs[..|specs| - 1], records, retryErrors)
      + (if Runnable(records, retryErrors, specs[|specs| - 1]) then [specs[|specs| - 1]] else [])
  }

  /** The runnable attempts in order, at most `limit` of them; no limit is None. */
  function Selection(
    specs: seq<string>, records: map<string, Record>, retryErrors: bool, limit: Option<int>): seq<string>
  {
    var all := Filtered(specs, records, retryErrors);
    if limit.None? || limit.value >= |all| then all else if limit.value <= 0 then [] else all[..limit.value]
  }

  lemma {:induction false} FilteredPrefix(specs: seq<string>, records: map<string, Record>, retryErrors: bool, n: nat)
    requires n <= |specs|
    ensures Filtered(specs[..n], records, retryErrors) <= Filtered(specs, records, retryErrors)
    decreases |specs|
  {
    if n == |specs| {
      assert specs[..n] == specs;
    } else {
      var shorter := specs[..|specs| - 1];
      assert shorter[..n] == specs[..n];
      FilteredPrefix(shorter, records, retryErrors, n);
    }
  }

  /** `selectRunnableAttempts` */
  method SelectRunnableAttempts(specs: seq<string>, records: map<string, Record>, retryErrors: bool, limit: Option<int>)
    returns (selected: seq<string>)
    ensures selected == Selection(specs, records, retryErrors, limit)
  {
    selected := [];
    if limit.Some? && limit.value <= 0 {
      return;
    }
    for i := 0 to |specs|
      invariant selected == Filtered(specs[..i], records, retryErrors)
      invariant limit.Some? ==> |selected| < limit.value
    {
      var spec := specs[i];
      assert specs[..i + 1][..i] == specs[..i];
      if spec in records && !(retryErrors && IsRetryable(records[spec])) {
        continue;
      }
      selected := selected + [spec];
      if limit.Some? && |selected| >= limit.value {
        FilteredPrefix(specs, records, retryErrors, i + 1);
        return;
      }
    }
    assert specs[..|specs|] == specs;
  }

  /** A selection keeps distinct keys distinct, and holds only runnable ones. */
  lemma {:induction false} FilteredFacts(specs: seq<string>, records: map<string, Record>, retryErrors: bool)
    ensures forall k :: k in Filtered(specs, records, retryErrors) ==> k in specs && Runnable(records, retryErrors, k)
    ensures Distinct(specs) ==> Distinct(Filtered(specs, records, retryErrors))
  {
    if specs != [] {
      FilteredFacts(specs[..|specs| - 1], records, retryErrors);
    }
  }

  lemma SelectionFacts(specs: seq<string>, records: map<string, Record>, retryErrors: bool, limit: Option<int>)
    ensures forall k :: k in Selection(specs, records, retryErrors, limit) ==> Runnable(records, retryErrors, k)
    ensures Distinct(specs) ==> Distinct(Selection(specs, records, retryErrors, limit))
  {
    FilteredFacts(specs, records, retryErrors);
  }

  // ---------------------------------------------------------------- one run

  /** How far the lanes have got with an attempt. */
  datatype Stage =
    | Unvisited
    | ToSolve
    | Solved(patch: string, cost: real)
    | Saved(patch: string, cost: real)
    | Marked(patch: string, cost: real)
    | Queued
    | Finished

  /** A grade job: the attempt, the patch to grade and the cost carried into its result. */
  datatype Job = Job(attempt: nat, patch: string, cost: real)

  /** What the run last wrote for an attempt. */
  datatype Written = WrotePlaceholder | WroteGrade | WroteSolveError

  datatype Run = Run(
    attempts: seq<string>, stages: seq<Stage>, snapshot: map<string, Record>, queue: seq<Job>,
    wrote: map<string, Written>)

  /** A solver call that returned, and so was paid for. */
  datatype Solve = Solve(key: string, patch: string, cost: real)

  /** The store, the process if one is alive, and all solves ever paid for. */
  datatype State = State(disk: Disk, run: Option<Run>, solves: seq<Solve>)

  const FRESH := State(Disk(map[], map[], {}), None, [])

  datatype Grade = Verdict(passed: bool) | CouldNotGrade | GradeThrows(error: string)

  datatype Step =
    | Begin(specs: seq<string>, rows: set<string>, retryErrors: bool, limit: Option<int>)
    | Visit(attempt: nat)
    | MissingRow(attempt: nat)
    | SolveFails(attempt: nat, error: string)
    | SolveReturns(attempt: nat, patch: string, cost: real)
    | SavePatch(attempt: nat)
    | MarkPending(attempt: nat)
    | Enqueue(attempt: nat)
    | GradeHead(grade: Grade)
    | Finish
    | Crash

  predicate At(s: State, i: nat) {
    s.run.Some? && i < |s.run.value.attempts| == |s.run.value.stages|
  }

  function StageOf(s: State, i: nat): Stage
    requires At(s, i)
  {
    s.run.value.stages[i]
  }

  function KeyOf(s: State, i: nat): string
    requires At(s, i)
  {
    s.run.value.attempts[i]
  }

  /** All lanes have returned and the queue has drained. */
  predicate Drained(r: Run) {
    && r.queue == []
    && forall i :: 0 <= i < |r.stages| ==> r.stages[i].Queued? || r.stages[i].Finished?
  }

  predicate Enabled(s: State, step: Step) {
    match step
    case Begin(_, rows, _, _) => s.run.None? && s.disk.rows <= rows
    case Visit(i) => At(s, i) && StageOf(s, i).Unvisited? && HasRow(s.disk, KeyOf(s, i))
    case MissingRow(i) => At(s, i) && StageOf(s, i).Unvisited? && !HasRow(s.disk, KeyOf(s, i))
    case SolveFails(i, _) => At(s, i) && StageOf(s, i).ToSolve?
    case SolveReturns(i, _, _) => At(s, i) && StageOf(s, i).ToSolve?
    case SavePatch(i) => At(s, i) && StageOf(s, i).Solved?
    case MarkPending(i) => At(s, i) && StageOf(s, i).Saved?
    case Enqueue(i) => At(s, i) && StageOf(s, i).Marked?
    case GradeHead(_) => s.run.Some? && s.run.value.queue != [] && At(s, s.run.value.queue[0].attempt)
    case Finish => s.run.Some? && Drained(s.run.value)
    case Crash => s.run.Some?
  }

  /** A record with a saved patch whose grading failed is graded again instead of solved. */
  predicate Regradeable(d: Disk, snapshot: map<string, Record>, key: string) {
    && key in snapshot
    && (snapshot[key].status == GradeError || snapshot[key].status == Ungradeable)
    && snapshot[key].hasPatch
    && key in d.patches
  }

  function Staged(s: State, i: nat, stage: Stage): State
    requires At(s, i)
  {
    s.(run := Some(s.run.value.(stages := s.run.value.stages[i := stage])))
  }

  /** Writing the record of attempt i. */
  function Recorded(s: State, i: nat, stage: Stage, record: Record, written: Written): State
    requires At(s, i)
  {
    var r := s.run.value;
    s.(disk := s.disk.(records := s.disk.records[r.attempts[i] := record]),
       run := Some(r.(stages := r.stages[i := stage], wrote := r.wrote[r.attempts[i] := written])))
  }

  function Pushed(s: State, job: Job): State
    requires s.run.Some?
  {
    s.(run := Some(s.run.value.(queue := s.run.value.queue + [job])))
  }

  function GradeRecord(job: Job, grade: Grade): Record {
    match grade
    case Verdict(p) => Record(Graded, Some(p), job.cost, true, None)
    case CouldNotGrade => Record(Ungradeable, None, job.cost, true, None)
    case GradeThrows(e) => Record(GradeError, None, job.cost, true, Some(e))
  }

  /** A process starts with the rows its start found or froze. */
  function Begun(s: State, specs: seq<string>, rows: set<string>, retryErrors: bool, limit: Option<int>): State {
    var attempts := Selection(specs, s.disk.records, retryErrors, limit);
    s.(disk := s.disk.(rows := rows),
       run := Some(Run(attempts, seq(|attempts|, _ => Unvisited), s.disk.records, [], map[])))
  }

  function Apply(s: State, step: Step): State
    requires Enabled(s, step)
  {
    match step
    case Begin(specs, rows, retryErrors, limit) => Begun(s, specs, rows, retryErrors, limit)
    case Visit(i) =>
      var key, r := KeyOf(s, i), s.run.value;
      if Regradeable(s.disk, r.snapshot, key) then
        Pushed(Staged(s, i, Queued), Job(i, s.disk.patches[key], r.snapshot[key].cost))
      else Staged(s, i, ToSolve)
    case MissingRow(i) => Recorded(s, i, Finished,
        SolveFailure("missing frozen instance " + Specs.InstanceOf(KeyOf(s, i))), WroteSolveError)
    case SolveFails(i, e) => Recorded(s, i, Finished, SolveFailure(e), WroteSolveError)
    case SolveReturns(i, patch, cost) =>
      Staged(s, i, Solved(patch, cost)).(solves := s.solves + [Solve(KeyOf(s, i), patch, cost)])
    case SavePatch(i) =>
      var st := StageOf(s, i);
      Staged(s, i, Saved(st.patch, st.cost)).(disk := s.disk.(patches := s.disk.patches[KeyOf(s, i) := st.patch]))
    case MarkPending(i) =>
      var st := StageOf(s, i);
      Recorded(s, i, Marked(st.patch, st.cost), Placeholder(st.cost), WrotePlaceholder)
    case Enqueue(i) =>
      var st := StageOf(s, i);
      Pushed(Staged(s, i, Queued), Job(i, st.patch, st.cost))
    case GradeHead(grade) =>
      var r := s.run.value;
      var job := r.queue[0];
      var t := Recorded(s, job.attempt, Finished, GradeRecord(job, grade), WroteGrade);
      t.(run := Some(t.run.value.(queue := r.queue[1..])))
    case Finish => s.(run := None)
    case Crash => s.(run := None)
  }

  predicate IsHistory(s: State, steps: seq<Step>)
    decreases |steps|
  {
    steps == [] || (Enabled(s, steps[0]) && IsHistory(Apply(s, steps[0]), steps[1..]))
  }

  function Final(s: State, steps: seq<Step>): State
    requires IsHistory(s, steps)
    decreases |steps|
  {
    if steps == [] then s else Final(Apply(s, steps[0]), steps[1..])
  }

  // ---------------------------------------------------------------- the invariant

  /** The last solve paid for an attempt. */
  function LastSolve(solves: seq<Solve>, key: string): Option<Solve> {
    if solves == [] then None
    else if solves[|solves| - 1].key == key then Some(solves[|solves| - 1])
    else LastSolve(solves[..|solves| - 1], key)
  }

  lemma LastSolveAppend(solves: seq<Solve>, solve: Solve, key: string)
    ensures LastSolve(solves + [solve], key) == if solve.key == key then Some(solve) else LastSolve(solves, key)
  {
    assert (solves + [solve])[..|solves|] == solves;
  }

  /** A record that carries a patch is not a solve error, its patch is on disk, cost and
      patch are those of the attempt's last solve, and its instance has a frozen row. */
  ghost predicate Sound(s: State, key: string) {
    key in s.disk.records && s.disk.records[key].hasPatch ==>
      && s.disk.records[key].status != SolveError
      && HasRow(s.disk, key)
      && key in s.disk.patches
      && LastSolve(s.solves, key) == Some(Solve(key, s.disk.patches[key], s.disk.records[key].cost))
  }

  predicate NoPatch(d: Disk, key: string) {
    key in d.records ==> !d.records[key].hasPatch
  }

  ghost predicate StageInv(s: State, i: nat)
    requires At(s, i)
  {
    var r, key := s.run.value, s.run.value.attempts[i];
    match r.stages[i]
    case Unvisited =>
      && key !in r.wrote
      && (key in r.snapshot <==> key in s.disk.records)
      && (key in r.snapshot ==> r.snapshot[key] == s.disk.records[key] && IsRetryable(r.snapshot[key]))
    case ToSolve => key !in r.wrote && NoPatch(s.disk, key) && HasRow(s.disk, key)
    case Solved(p, c) =>
      && key !in r.wrote && NoPatch(s.disk, key) && HasRow(s.disk, key)
      && LastSolve(s.solves, key) == Some(Solve(key, p, c))
    case Saved(p, c) =>
      && key !in r.wrote && NoPatch(s.disk, key) && HasRow(s.disk, key)
      && LastSolve(s.solves, key) == Some(Solve(key, p, c))
      && key in s.disk.patches && s.disk.patches[key] == p
    case Marked(p, c) =>
      && key in r.wrote && r.wrote[key] == WrotePlaceholder
      && key in s.disk.records && s.disk.records[key] == Placeholder(c)
      && key in s.disk.patches && s.disk.patches[key] == p
    case Queued => exists j :: 0 <= j < |r.queue| && r.queue[j].attempt == i
    case Finished => key in r.wrote && r.wrote[key] != WrotePlaceholder
  }

  /** A queued job is for a queued attempt whose record and patch it carries. */
  ghost predicate JobInv(s: State, job: Job) {
    && At(s, job.attempt)
    && StageOf(s, job.attempt).Queued?
    && var key := KeyOf(s, job.attempt);
       && key in s.disk.records && s.disk.records[key].hasPatch && s.disk.records[key].cost == job.cost
       && key in s.disk.patches && s.disk.patches[key] == job.patch
  }

  /** What the kind of a write says about the record written. */
  predicate WrittenAs(w: Written, r: Record) {
    match w
    case WrotePlaceholder => r == Placeholder(r.cost)
    case WroteGrade => r.status != SolveError && r.hasPatch
    case WroteSolveError => r.status == SolveError && !r.hasPatch
  }

  ghost predicate RunInv(s: State)
    requires s.run.Some?
  {
    var r := s.run.value;
    && |r.attempts| == |r.stages|
    && Distinct(r.attempts)
    && (forall i :: 0 <= i < |r.attempts| ==> StageInv(s, i))
    && (forall j :: 0 <= j < |r.queue| ==> JobInv(s, r.queue[j]))
    && (forall j, k :: 0 <= j < k < |r.queue| ==> r.queue[j].attempt != r.queue[k].attempt)
    && (forall key :: WroteAt(s, key))
  }

  ghost predicate Inv(s: State) {
    && (forall key :: Sound(s, key))
    && (s.run.Some? ==> RunInv(s))
  }

  /** The assumption on a step: a configuration's attempts have distinct keys. */
  ghost predicate Proper(step: Step) {
    step.Begin? ==> Distinct(step.specs)
  }

  // ---------------------------------------------------------------- every step keeps it

  /** Nothing about `key` differs between the two states. */
  ghost predicate SameAt(s: State, t: State, key: string)
    requires s.run.Some? && t.run.Some?
  {
    && (key in s.disk.records <==> key in t.disk.records)
    && (key in s.disk.records ==> s.disk.records[key] == t.disk.records[key])
    && (key in s.disk.patches <==> key in t.disk.patches)
    && (key in s.disk.patches ==> s.disk.patches[key] == t.disk.patches[key])
    && LastSolve(s.solves, key) == LastSolve(t.solves, key)
    && (key in s.run.value.wrote <==> key in t.run.value.wrote)
    && (key in s.run.value.wrote ==> s.run.value.wrote[key] == t.run.value.wrote[key])
  }

  /** The step worked on attempt i only. */
  ghost predicate OnlyAt(s: State, t: State, i: nat)
    requires At(s, i)
  {
    && t.run.Some?
    && t.run.value.attempts == s.run.value.attempts
    && t.run.value.snapshot == s.run.value.snapshot
    && t.disk.rows == s.disk.rows
    && |t.run.value.stages| == |s.run.value.stages|
    && (forall j :: 0 <= j < |s.run.value.stages| && j != i ==> t.run.value.stages[j] == s.run.value.stages[j])
    && (forall key :: key != KeyOf(s, i) ==> SameAt(s, t, key))
  }

  lemma OtherStageKept(s: State, t: State, i: nat, j: nat)
    requires At(s, i) && RunInv(s) && OnlyAt(s, t, i) && j < |s.run.value.attempts| && j != i
    requires forall n :: 0 <= n < |s.run.value.queue| && s.run.value.queue[n].attempt != i ==>
        s.run.value.queue[n] in t.run.value.queue
    ensures StageInv(t, j)
  {
    assert StageInv(s, j);
    assert KeyOf(s, j) != KeyOf(s, i);
    assert SameAt(s, t, KeyOf(s, j));
    if StageOf(s, j).Queued? {
      var n :| 0 <= n < |s.run.value.queue| && s.run.value.queue[n].attempt == j;
      assert s.run.value.queue[n] in t.run.value.queue;
    }
  }

  lemma OtherJobKept(s: State, t: State, i: nat, job: Job)
    requires At(s, i) && RunInv(s) && OnlyAt(s, t, i) && JobInv(s, job) && job.attempt != i
    ensures JobInv(t, job)
  {
    assert KeyOf(s, job.attempt) != KeyOf(s, i);
    assert SameAt(s, t, KeyOf(s, job.attempt));
  }

  /** A step that works on attempt i and leaves the queue alone. */
  lemma StageStep(s: State, t: State, i: nat)
    requires At(s, i) && RunInv(s) && OnlyAt(s, t, i) && t.run.value.queue == s.run.value.queue
    requires !StageOf(s, i).Queued? && StageInv(t, i)
    requires WroteAt(t, KeyOf(s, i))
    ensures RunInv(t)
  {
    forall j | 0 <= j < |t.run.value.attempts|
      ensures StageInv(t, j)
    {
      if j != i {
        OtherStageKept(s, t, i, j);
      }
    }
    forall n | 0 <= n < |t.run.value.queue|
      ensures JobInv(t, t.run.value.queue[n])
    {
      assert JobInv(s, s.run.value.queue[n]);
      OtherJobKept(s, t, i, s.run.value.queue[n]);
    }
    WroteKept(s, t, i);
  }

  ghost predicate WroteAt(s: State, key: string)
    requires s.run.Some?
  {
    key in s.run.value.wrote ==> key in s.disk.records && WrittenAs(s.run.value.wrote[key], s.disk.records[key])
  }

  lemma WroteKept(s: State, t: State, i: nat)
    requires At(s, i) && RunInv(s) && OnlyAt(s, t, i)
    requires WroteAt(t, KeyOf(s, i))
    ensures forall key :: WroteAt(t, key)
  {
    forall key
      ensures WroteAt(t, key)
    {
      if key != KeyOf(s, i) {
        assert SameAt(s, t, key) && WroteAt(s, key);
      }
    }
  }

  /** A step that queues a grade of attempt i. */
  lemma QueueStep(s: State, t: State, i: nat, job: Job)
    requires At(s, i) && RunInv(s) && OnlyAt(s, t, i) && t.run.value.queue == s.run.value.queue + [job]
    requires !StageOf(s, i).Queued? && job.attempt == i && JobInv(t, job)
    requires WroteAt(t, KeyOf(s, i))
    ensures RunInv(t)
  {
    var q := t.run.value.queue;
    assert q[|q| - 1] == job;
    forall n | 0 <= n < |s.run.value.queue|
      ensures JobInv(s, s.run.value.queue[n]) && JobInv(t, q[n]) && q[n].attempt != i
    {
      assert JobInv(s, s.run.value.queue[n]);
      assert s.run.value.queue[n].attempt != i;
      OtherJobKept(s, t, i, s.run.value.queue[n]);
    }
    forall j | 0 <= j < |t.run.value.attempts|
      ensures StageInv(t, j)
    {
      if j != i {
        OtherStageKept(s, t, i, j);
      }
    }
    WroteKept(s, t, i);
  }

  /** The step that takes the head of the queue and finishes its attempt. */
  lemma DequeueStep(s: State, t: State, i: nat)
    requires At(s, i) && RunInv(s) && OnlyAt(s, t, i)
    requires s.run.value.queue != [] && s.run.value.queue[0].attempt == i && t.run.value.queue == s.run.value.queue[1..]
    requires StageInv(t, i) && !StageOf(t, i).Queued?
    requires WroteAt(t, KeyOf(s, i))
    ensures RunInv(t)
  {
    var q := s.run.value.queue;
    forall n | 0 <= n < |t.run.value.queue|
      ensures JobInv(t, t.run.value.queue[n])
    {
      assert t.run.value.queue[n] == q[n + 1] && q[n + 1].attempt != i;
      assert JobInv(s, q[n + 1]);
      OtherJobKept(s, t, i, q[n + 1]);
    }
    forall n | 0 <= n < |q| && q[n].attempt != i
      ensures q[n] in t.run.value.queue
    {
      assert t.run.value.queue[n - 1] == q[n];
    }
    forall j | 0 <= j < |t.run.value.attempts|
      ensures StageInv(t, j)
    {
      if j != i {
        OtherStageKept(s, t, i, j);
      }
    }
    WroteKept(s, t, i);
  }

  /** The attempt a step works on. */
  function AttemptOf(s: State, step: Step): nat
    requires Enabled(s, step) && !step.Begin? && !step.Finish? && !step.Crash?
  {
    if step.GradeHead? then s.run.value.queue[0].attempt else step.attempt
  }

  predicate IsWork(step: Step) {
    !step.Begin? && !step.Finish? && !step.Crash?
  }

  lemma StepIsLocal(s: State, step: Step)
    requires Inv(s) && Enabled(s, step) && IsWork(step)
    ensures At(s, AttemptOf(s, step)) && OnlyAt(s, Apply(s, step), AttemptOf(s, step))
    ensures forall key :: key != KeyOf(s, AttemptOf(s, step)) ==> Sound(Apply(s, step), key)
  {
    var i := AttemptOf(s, step);
    var t := Apply(s, step);
    forall key | key != KeyOf(s, i)
      ensures SameAt(s, t, key) && Sound(t, key)
    {
      if step.SolveReturns? {
        LastSolveAppend(s.solves, Solve(KeyOf(s, i), step.patch, step.cost), key);
      }
      assert Sound(s, key);
    }
  }

  /** Classifying an attempt: with a saved patch it is queued with the patch and cost on
      record, otherwise it will be solved, and then there is no patch on record. */
  lemma VisitKeepsInv(s: State, i: nat)
    requires Inv(s) && Enabled(s, Visit(i))
    ensures Inv(Apply(s, Visit(i)))
  {
    var t := Apply(s, Visit(i));
    var key := KeyOf(s, i);
    StepIsLocal(s, Visit(i));
    assert StageInv(s, i) && Sound(s, key) && Sound(t, key);
    if Regradeable(s.disk, s.run.value.snapshot, key) {
      QueueStep(s, t, i, Job(i, s.disk.patches[key], s.run.value.snapshot[key].cost));
    } else {
      StageStep(s, t, i);
    }
  }

  lemma LaneKeepsInv(s: State, step: Step)
    requires Inv(s) && Enabled(s, step)
    requires step.MissingRow? || step.SolveFails? || step.SolveReturns? || step.SavePatch? || step.MarkPending?
    ensures Inv(Apply(s, step))
  {
    var i := AttemptOf(s, step);
    var t, key := Apply(s, step), KeyOf(s, i);
    StepIsLocal(s, step);
    assert StageInv(s, i) && Sound(s, key);
    if step.SolveReturns? {
      LastSolveAppend(s.solves, Solve(key, step.patch, step.cost), key);
    }
    assert Sound(t, key);
    StageStep(s, t, i);
  }

  lemma EnqueueKeepsInv(s: State, i: nat)
    requires Inv(s) && Enabled(s, Enqueue(i))
    ensures Inv(Apply(s, Enqueue(i)))
  {
    var t, key := Apply(s, Enqueue(i)), KeyOf(s, i);
    StepIsLocal(s, Enqueue(i));
    assert StageInv(s, i) && Sound(s, key) && Sound(t, key);
    QueueStep(s, t, i, Job(i, StageOf(s, i).patch, StageOf(s, i).cost));
  }

  lemma GradeKeepsInv(s: State, grade: Grade)
    requires Inv(s) && Enabled(s, GradeHead(grade))
    ensures Inv(Apply(s, GradeHead(grade)))
  {
    var i := AttemptOf(s, GradeHead(grade));
    var t, key := Apply(s, GradeHead(grade)), KeyOf(s, i);
    StepIsLocal(s, GradeHead(grade));
    assert JobInv(s, s.run.value.queue[0]) && Sound(s, key) && Sound(t, key);
    DequeueStep(s, t, i);
  }

  lemma BeginKeepsInv(s: State, step: Step)
    requires Inv(s) && step.Begin? && Enabled(s, step) && Proper(step)
    ensures Inv(Apply(s, step))
  {
    var t := Apply(s, step);
    SelectionFacts(step.specs, s.disk.records, step.retryErrors, step.limit);
    forall key
      ensures Sound(t, key)
    {
      assert Sound(s, key);
    }
    forall i | 0 <= i < |t.run.value.attempts|
      ensures StageInv(t, i)
    {
      assert t.run.value.attempts[i] in t.run.value.attempts;
    }
  }

  lemma InvStep(s: State, step: Step)
    requires Inv(s) && Enabled(s, step) && Proper(step)
    ensures Inv(Apply(s, step))
  {
    match step
    case Begin(_, _, _, _) => BeginKeepsInv(s, step);
    case Visit(i) => VisitKeepsInv(s, i);
    case Enqueue(i) => EnqueueKeepsInv(s, i);
    case GradeHead(g) => GradeKeepsInv(s, g);
    case Finish => NoRunKeepsInv(s);
    case Crash => NoRunKeepsInv(s);
    case _ => LaneKeepsInv(s, step);
  }

  lemma NoRunKeepsInv(s: State)
    requires Inv(s)
    ensures Inv(s.(run := None))
  {
    forall key
      ensures Sound(s.(run := None), key)
    {
      assert Sound(s, key);
    }
  }

  ghost predicate ProperHistory(steps: seq<Step>) {
    forall i :: 0 <= i < |steps| ==> Proper(steps[i])
  }

  lemma {:induction false} InvHistory(s: State, steps: seq<Step>)
    requires Inv(s) && IsHistory(s, steps) && ProperHistory(steps)
    ensures Inv(Final(s, steps))
    decreases |steps|
  {
    if steps != [] {
      InvStep(s, steps[0]);
      InvHistory(Apply(s, steps[0]), steps[1..]);
    }
  }

  // ---------------------------------------------------------------- paid once, costed once

  /** Patch and record of a paid solve are both on disk. */
  predicate Banked(d: Disk, key: string, patch: string, cost: real) {
    && key in d.records && d.records[key].hasPatch && d.records[key].cost == cost
    && key in d.patches && d.patches[key] == patch
  }

  /** How often an attempt was solved. */
  function SolveCount(solves: seq<Solve>, key: string): nat {
    if solves == [] then 0
    else SolveCount(solves[..|solves| - 1], key) + if solves[|solves| - 1].key == key then 1 else 0
  }

  lemma BankedStep(s: State, step: Step, key: string, patch: string, cost: real)
    requires Inv(s) && Enabled(s, step) && Proper(step) && Banked(s.disk, key, patch, cost)
    ensures Banked(Apply(s, step).disk, key, patch, cost)
    ensures SolveCount(Apply(s, step).solves, key) == SolveCount(s.solves, key)
  {
    if IsWork(step) {
      var i := AttemptOf(s, step);
      StepIsLocal(s, step);
      if key != KeyOf(s, i) {
        assert SameAt(s, Apply(s, step), key);
      } else if step.GradeHead? {
        assert JobInv(s, s.run.value.queue[0]);
      } else if step.MissingRow? {
        BankedHasRow(s, i, patch, cost);
      } else {
        assert StageInv(s, i);
      }
      if step.SolveReturns? {
        assert Apply(s, step).solves[..|s.solves|] == s.solves;
      }
    }
  }

  /** Over every history of crashes, restarts, regrades and grade errors: once an attempt's
      patch and record are on disk it is never solved again, and its record keeps the cost
      and its patch file the patch of that solve. */
  lemma {:induction false} PaidOnce(s: State, steps: seq<Step>, key: string, patch: string, cost: real)
    requires Inv(s) && IsHistory(s, steps) && ProperHistory(steps) && Banked(s.disk, key, patch, cost)
    ensures Banked(Final(s, steps).disk, key, patch, cost)
    ensures SolveCount(Final(s, steps).solves, key) == SolveCount(s.solves, key)
    decreases |steps|
  {
    if steps != [] {
      BankedStep(s, steps[0], key, patch, cost);
      InvStep(s, steps[0]);
      PaidOnce(Apply(s, steps[0]), steps[1..], key, patch, cost);
    }
  }

  /** From an empty store, any record that carries a patch carries the cost of the attempt's
      last solve, and writing the placeholder is what banks a solve. */
  lemma RecordedCostIsPaidCost(steps: seq<Step>, key: string)
    requires IsHistory(FRESH, steps) && ProperHistory(steps)
    requires var d := Final(FRESH, steps).disk; key in d.records && d.records[key].hasPatch
    ensures var s := Final(FRESH, steps);
            && key in s.disk.patches
            && LastSolve(s.solves, key) == Some(Solve(key, s.disk.patches[key], s.disk.records[key].cost))
  {
    InvHistory(FRESH, steps);
    assert Sound(Final(FRESH, steps), key);
  }

  /** The placeholder banks exactly the solve that produced it. */
  lemma PlaceholderBanks(s: State, i: nat)
    requires Inv(s) && Enabled(s, MarkPending(i))
    ensures var key, st := KeyOf(s, i), StageOf(s, i);
            && Banked(Apply(s, MarkPending(i)).disk, key, st.patch, st.cost)
            && LastSolve(s.solves, key) == Some(Solve(key, st.patch, st.cost))
            && key !in s.run.value.wrote
  {
    assert StageInv(s, i);
  }

  /** A restarted run that selects a banked attempt queues its saved patch for grading. */
  lemma ResumeRegrades(s: State, i: nat, patch: string, cost: real)
    requires Inv(s) && Enabled(s, Visit(i)) && Banked(s.disk, KeyOf(s, i), patch, cost)
    ensures Apply(s, Visit(i)).run.value.queue == s.run.value.queue + [Job(i, patch, cost)]
    ensures StageOf(Apply(s, Visit(i)), i) == Queued
  {
    assert StageInv(s, i) && Sound(s, KeyOf(s, i));
  }

  // ---------------------------------------------------------------- no placeholder survives, none overwrites

  /** In every interleaving of lanes and queue, a placeholder is only ever written where this
      run has written nothing yet, so it never overwrites a grade result. */
  lemma PlaceholderComesFirst(steps: seq<Step>, i: nat)
    requires IsHistory(FRESH, steps) && ProperHistory(steps) && Enabled(Final(FRESH, steps), MarkPending(i))
    ensures var s := Final(FRESH, steps); KeyOf(s, i) !in s.run.value.wrote
  {
    InvHistory(FRESH, steps);
    assert StageInv(Final(FRESH, steps), i);
  }

  /** After the drain every attempt of the run has a record this run wrote, and what it wrote
      last is a grade result or a solve error, not the placeholder. */
  lemma DrainLeavesNoPlaceholder(steps: seq<Step>, i: nat)
    requires IsHistory(FRESH, steps) && ProperHistory(steps)
    requires Final(FRESH, steps).run.Some? && Drained(Final(FRESH, steps).run.value)
    requires i < |Final(FRESH, steps).run.value.attempts|
    ensures var s := Final(FRESH, steps);
            && var key := s.run.value.attempts[i];
               && key in s.run.value.wrote && key in s.disk.records
               && (|| (s.run.value.wrote[key] == WroteGrade && s.disk.records[key].hasPatch
                   && s.disk.records[key].status != SolveError)
                   || (s.run.value.wrote[key] == WroteSolveError && s.disk.records[key].status == SolveError))
  {
    var s := Final(FRESH, steps);
    InvHistory(FRESH, steps);
    assert StageInv(s, i) && WroteAt(s, s.run.value.attempts[i]);
  }

  /** A banked attempt is never without its frozen row, so no run takes it for an instance
      that has none. */
  lemma BankedHasRow(s: State, i: nat, patch: string, cost: real)
    requires Inv(s) && At(s, i) && Banked(s.disk, KeyOf(s, i), patch, cost)
    ensures HasRow(s.disk, KeyOf(s, i)) && !Enabled(s, MissingRow(i))
  {
    assert Sound(s, KeyOf(s, i));
  }

  // ---------------------------------------------------------------- building histories

  lemma {:induction false} HistoryExtends(s: State, steps: seq<Step>, step: Step)
    requires IsHistory(s, steps) && Enabled(Final(s, steps), step)
    ensures IsHistory(s, steps + [step]) && Final(s, steps + [step]) == Apply(Final(s, steps), step)
    decreases |steps|
  {
    if steps == [] {
      assert [step][1..] == [];
    } else {
      HistoryExtends(Apply(s, steps[0]), steps[1..], step);
      assert (steps + [step])[0] == steps[0] && (steps + [step])[1..] == steps[1..] + [step];
    }
  }
}
