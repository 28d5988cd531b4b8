/** What the records of a run say: each grade's own result, and each failure's own error. */
module PilotGrades {
  import opened Text
  import opened PilotRun
  import Specs = PilotSpecs

  /** The record states the grade, and carries cost and patch of the job. */
  predicate States(r: Record, grade: Grade, job: Job) {
    && (r.status == Graded <==> grade.Verdict?)
    && (r.status == Ungradeable <==> grade == CouldNotGrade)
    && (r.status == GradeError <==> grade.GradeThrows?)
    && r.passed == (if grade.Verdict? then Some(grade.passed) else None)
    && r.error == (if grade.GradeThrows? then Some(grade.error) else None)
    && r.cost == job.cost && r.hasPatch
  }

  /** Grading the head of the queue records exactly that grade, for the head's attempt. */
  lemma GradeIsRecorded(s: State, grade: Grade)
    requires Inv(s) && Enabled(s, GradeHead(grade))
    ensures var job := s.run.value.queue[0];
            var key, t := KeyOf(s, job.attempt), Apply(s, GradeHead(grade));
            && key in t.disk.records && States(t.disk.records[key], grade, job)
            && key in t.disk.patches && t.disk.patches[key] == job.patch
            && t.run.value.queue == s.run.value.queue[1..]
            && forall other :: other in s.disk.records && other != key ==>
                 other in t.disk.records && t.disk.records[other] == s.disk.records[other]
  {
    assert JobInv(s, s.run.value.queue[0]);
  }

  /** The other records a run writes, for an attempt whose solve failed, whose instance has no
      row, or whose grade is still to come. */
  lemma FailuresAreRecorded(s: State, step: Step)
    requires Enabled(s, step) && (step.SolveFails? || step.MissingRow? || step.MarkPending?)
    ensures var key, t := KeyOf(s, step.attempt), Apply(s, step);
            && key in t.disk.records
            && var r := t.disk.records[key];
               && r.passed == None
               && (step.SolveFails? ==>
                     r.status == SolveError && r.error == Some(step.error) && r.cost == 0.0 && !r.hasPatch)
               && (step.MissingRow? ==>
                     r.status == SolveError && r.cost == 0.0 && !r.hasPatch
                     && r.error == Some("missing frozen instance " + Specs.InstanceOf(key)))
               && (step.MarkPending? ==>
                     r.status == GradeError && r.cost == StageOf(s, step.attempt).cost && r.hasPatch
                     && r.error == Some(PENDING))
  {
  }

  // ---------------------------------------------------------------- up to the drain

  /** A grade given in the current run, and the job it was for. */
  datatype Given = Given(grade: Grade, job: Job)

  /** The last grade given to each attempt key in the current run. */
  function GivenIn(s: State, steps: seq<Step>, given: map<string, Given>): map<string, Given>
    requires IsHistory(s, steps)
    decreases |steps|
  {
    if steps == [] then given
    else GivenIn(Apply(s, steps[0]), steps[1..], Updated(s, steps[0], given))
  }

  function Updated(s: State, step: Step, given: map<string, Given>): map<string, Given>
    requires Enabled(s, step)
  {
    match step
    case Begin(_, _, _, _) => map[]
    case GradeHead(grade) =>
      var job := s.run.value.queue[0];
      given[KeyOf(s, job.attempt) := Given(grade, job)]
    case _ => given
  }

  /** Where the run last wrote a grade result, the record states the last grade given there,
      and the patch graded is the one on disk. */
  ghost predicate GradesInv(s: State, given: map<string, Given>) {
    s.run.Some? ==> forall key :: GradedAt(s, given, key)
  }

  ghost predicate GradedAt(s: State, given: map<string, Given>, key: string)
    requires s.run.Some?
  {
    key in s.run.value.wrote && s.run.value.wrote[key] == WroteGrade ==>
      && key in given && key in s.disk.records
      && PilotRun.At(s, given[key].job.attempt) && KeyOf(s, given[key].job.attempt) == key
      && States(s.disk.records[key], given[key].grade, given[key].job)
      && key in s.disk.patches && s.disk.patches[key] == given[key].job.patch
  }

  lemma GradedStep(s: State, step: Step, given: map<string, Given>, key: string)
    requires Inv(s) && Enabled(s, step) && IsWork(step) && GradedAt(s, given, key)
    ensures GradedAt(Apply(s, step), Updated(s, step, given), key)
  {
    var i := AttemptOf(s, step);
    StepIsLocal(s, step);
    if key != KeyOf(s, i) {
      assert SameAt(s, Apply(s, step), key);
    } else if step.GradeHead? {
      GradeIsRecorded(s, step.grade);
    } else {
      assert StageInv(s, i);
    }
  }

  lemma GradesStep(s: State, step: Step, given: map<string, Given>)
    requires Inv(s) && Enabled(s, step) && GradesInv(s, given)
    ensures GradesInv(Apply(s, step), Updated(s, step, given))
  {
    if IsWork(step) {
      forall key
        ensures GradedAt(Apply(s, step), Updated(s, step, given), key)
      {
        assert GradedAt(s, given, key);
        GradedStep(s, step, given, key);
      }
    }
  }

  lemma {:induction false} GradesHistory(s: State, steps: seq<Step>, given: map<string, Given>)
    requires Inv(s) && IsHistory(s, steps) && ProperHistory(steps) && GradesInv(s, given)
    ensures GradesInv(Final(s, steps), GivenIn(s, steps, given))
    decreases |steps|
  {
    if steps != [] {
      GradesStep(s, steps[0], given);
      InvStep(s, steps[0]);
      GradesHistory(Apply(s, steps[0]), steps[1..], Updated(s, steps[0], given));
    }
  }

  /** After the drain of a run, over any earlier history: the record of each attempt states the
      grade that its own job was given in this run, for the patch on disk, or is the solve
      error this run wrote. */
  lemma DrainedRecordsStateTheirGrades(steps: seq<Step>, i: nat)
    requires IsHistory(FRESH, steps) && ProperHistory(steps)
    requires Final(FRESH, steps).run.Some? && Drained(Final(FRESH, steps).run.value)
    requires i < |Final(FRESH, steps).run.value.attempts|
    ensures var s, given := Final(FRESH, steps), GivenIn(FRESH, steps, map[]);
            var key := s.run.value.attempts[i];
            && key in s.disk.records
            && (|| (&& key in given && given[key].job.attempt == i
                    && States(s.disk.records[key], given[key].grade, given[key].job)
                    && key in s.disk.patches && s.disk.patches[key] == given[key].job.patch)
                || (&& key in s.run.value.wrote && s.run.value.wrote[key] == WroteSolveError
                    && s.disk.records[key].status == SolveError))
  {
    GradesHistory(FRESH, steps, map[]);
    InvHistory(FRESH, steps);
    DrainLeavesNoPlaceholder(steps, i);
    var s := Final(FRESH, steps);
    assert GradedAt(s, GivenIn(FRESH, steps, map[]), s.run.value.attempts[i]);
  }

  // ---------------------------------------------------------------- which attempts run

  lemma {:induction false} FilteredIff(specs: seq<string>, records: map<string, Record>, retryErrors: bool, key: string)
    ensures key in Filtered(specs, records, retryErrors) <==> key in specs && MustRun(records, retryErrors, key)
  {
    if specs != [] {
      var n := |specs| - 1;
      FilteredIff(specs[..n], records, retryErrors, key);
      assert specs == specs[..n] + [specs[n]];
    }
  }

  /** An attempt without a record runs; one with a record runs again only on request, and only
      after a solve error, a grade error, or as ungradeable with a saved patch. */
  predicate MustRun(records: map<string, Record>, retryErrors: bool, key: string) {
    key in records ==>
      && retryErrors
      && var r := records[key];
         r.status == SolveError || r.status == GradeError || (r.status == Ungradeable && r.hasPatch)
  }

  /** The selection is everything that must run, or as many of it as allowed. */
  lemma SelectionIff(specs: seq<string>, records: map<string, Record>, retryErrors: bool, limit: Option<int>)
    ensures var all, selected := Filtered(specs, records, retryErrors), Selection(specs, records, retryErrors, limit);
            && (forall key :: key in all <==> key in specs && MustRun(records, retryErrors, key))
            && selected <= all
            && |selected| == (if limit.None? || limit.value >= |all| then |all|
                              else if limit.value <= 0 then 0
                              else limit.value)
  {
    forall key
      ensures key in Filtered(specs, records, retryErrors) <==> key in specs && MustRun(records, retryErrors, key)
    {
      FilteredIff(specs, records, retryErrors, key);
    }
  }

  /** What a visit decides: an attempt whose record at the start of the run says that grading
      failed, and whose patch is still there, is queued with patch and cost; any other is
      solved. */
  lemma VisitDecides(s: State, i: nat)
    requires Enabled(s, Visit(i))
    ensures var key, r, t := KeyOf(s, i), s.run.value, Apply(s, Visit(i));
            var regrade := && key in r.snapshot && key in s.disk.patches && r.snapshot[key].hasPatch
                           && (r.snapshot[key].status == GradeError || r.snapshot[key].status == Ungradeable);
            && t.disk == s.disk && t.solves == s.solves
            && (regrade ==>
                  StageOf(t, i) == Queued
                  && t.run.value.queue == r.queue + [Job(i, s.disk.patches[key], r.snapshot[key].cost)])
            && (!regrade ==> StageOf(t, i) == ToSolve && t.run.value.queue == r.queue)
  {
  }
}
