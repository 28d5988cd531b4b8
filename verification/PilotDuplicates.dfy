/** The distinct-keys assumption of the pilot run, made exact: which configurations can pay
    twice for one attempt, or lose a grade to a placeholder. */
module PilotDuplicates {
  import opened Text
  import opened PilotRun
  import Specs = PilotSpecs

  /** Every run of the history is of this configuration. */
  ghost predicate Uses(steps: seq<Step>, specs: seq<string>) {
    forall i :: 0 <= i < |steps| && steps[i].Begin? ==> steps[i].specs == specs
  }

  /** After `earlier` an attempt's patch and record are on disk, and `later` solves it again. */
  ghost predicate PaysAgain(
    specs: seq<string>, earlier: seq<Step>, later: seq<Step>, key: string, patch: string, cost: real)
  {
    && Uses(earlier, specs) && Uses(later, specs)
    && IsHistory(FRESH, earlier)
    && Banked(Final(FRESH, earlier).disk, key, patch, cost)
    && IsHistory(Final(FRESH, earlier), later)
    && SolveCount(Final(Final(FRESH, earlier), later).solves, key) > SolveCount(Final(FRESH, earlier).solves, key)
  }

  ghost predicate CanPayAgain(specs: seq<string>) {
    exists earlier, later, key, patch, cost :: PaysAgain(specs, earlier, later, key, patch, cost)
  }

  /** A placeholder is about to be written over a grade result of the same run. */
  ghost predicate Overwrites(specs: seq<string>, steps: seq<Step>, i: nat) {
    && Uses(steps, specs)
    && IsHistory(FRESH, steps)
    && Enabled(Final(FRESH, steps), MarkPending(i))
    && var s := Final(FRESH, steps);
       KeyOf(s, i) in s.run.value.wrote && s.run.value.wrote[KeyOf(s, i)] == WroteGrade
  }

  ghost predicate CanOverwrite(specs: seq<string>) {
    exists steps, i :: Overwrites(specs, steps, i)
  }

  // ---------------------------------------------------------------- reaching two attempts of one key

  lemma {:induction false} NothingFiltered(specs: seq<string>)
    ensures Filtered(specs, map[], false) == specs
  {
    if specs != [] {
      NothingFiltered(specs[..|specs| - 1]);
      assert specs == specs[..|specs| - 1] + [specs[|specs| - 1]];
    }
  }

  function AllRows(specs: seq<string>): set<string> {
    set n | 0 <= n < |specs| :: Specs.InstanceOf(specs[n])
  }

  /** A state on the way of a fresh first run of the configuration. */
  ghost predicate Reaches(specs: seq<string>, steps: seq<Step>, s: State) {
    Uses(steps, specs) && IsHistory(FRESH, steps) && Final(FRESH, steps) == s
  }

  lemma OneMore(specs: seq<string>, steps: seq<Step>, s: State, step: Step) returns (steps': seq<Step>)
    requires Reaches(specs, steps, s) && Enabled(s, step) && (step.Begin? ==> step.specs == specs)
    ensures Reaches(specs, steps', Apply(s, step)) && steps' == steps + [step]
  {
    HistoryExtends(FRESH, steps, step);
    steps' := steps + [step];
  }

  /** Any two attempts of a first run can both be on their way to be solved. */
  lemma TwoToSolve(specs: seq<string>, i: nat, j: nat) returns (steps: seq<Step>, s: State)
    requires i < j < |specs|
    ensures Reaches(specs, steps, s)
    ensures PilotRun.At(s, i) && PilotRun.At(s, j) && s.run.value.attempts == specs && s.run.value.queue == []
    ensures StageOf(s, i).ToSolve? && StageOf(s, j).ToSolve?
  {
    NothingFiltered(specs);
    var begin := Begin(specs, AllRows(specs), false, None);
    var s0 := Apply(FRESH, begin);
    steps := OneMore(specs, [], FRESH, begin);
    assert s0.run.value.attempts == specs && HasRow(s0.disk, specs[i]) && HasRow(s0.disk, specs[j]);
    var s1 := Apply(s0, Visit(i));
    steps := OneMore(specs, steps, s0, Visit(i));
    s := Apply(s1, Visit(j));
    steps := OneMore(specs, steps, s1, Visit(j));
  }

  /** A solve that returned is banked, with nothing else happening. */
  lemma BankIt(specs: seq<string>, steps: seq<Step>, s: State, i: nat, patch: string, cost: real)
    returns (steps': seq<Step>, t: State)
    requires Reaches(specs, steps, s) && PilotRun.At(s, i) && StageOf(s, i).ToSolve?
    ensures Reaches(specs, steps', t) && PilotRun.At(t, i) && t.run.value.attempts == s.run.value.attempts
    ensures t.run.value.stages == s.run.value.stages[i := Marked(patch, cost)]
    ensures t.run.value.queue == s.run.value.queue && Banked(t.disk, KeyOf(s, i), patch, cost)
  {
    var s1 := Apply(s, SolveReturns(i, patch, cost));
    var s2 := Apply(s1, SavePatch(i));
    t := Apply(s2, MarkPending(i));
    steps' := OneMore(specs, steps, s, SolveReturns(i, patch, cost));
    steps' := OneMore(specs, steps', s1, SavePatch(i));
    steps' := OneMore(specs, steps', s2, MarkPending(i));
    assert t.run.value.stages == s.run.value.stages[i := Marked(patch, cost)];
  }

  /** Two attempts with one key in a configuration: the second solve returns, and is paid
      for, although the first is already banked. */
  lemma DuplicateKeysPayTwice(
    specs: seq<string>, i: nat, j: nat, patch: string, cost: real, patch': string, cost': real)
    returns (earlier: seq<Step>, later: seq<Step>)
    requires i < j < |specs| && specs[i] == specs[j]
    ensures PaysAgain(specs, earlier, later, specs[i], patch, cost)
    ensures later == [SolveReturns(j, patch', cost')]
  {
    var s;
    earlier, s := TwoToSolve(specs, i, j);
    var banked;
    earlier, banked := BankIt(specs, earlier, s, i, patch, cost);
    later := [SolveReturns(j, patch', cost')];
    HistoryExtends(banked, [], later[0]);
    assert [] + later == later;
    var t := Apply(banked, later[0]);
    assert t.solves[..|t.solves| - 1] == banked.solves;
  }

  /** The only marked attempt is queued and graded. */
  lemma GradeIt(specs: seq<string>, steps: seq<Step>, s: State, i: nat, passed: bool)
    returns (steps': seq<Step>, t: State)
    requires Reaches(specs, steps, s) && PilotRun.At(s, i) && StageOf(s, i).Marked? && s.run.value.queue == []
    ensures Reaches(specs, steps', t) && PilotRun.At(t, i) && t.run.value.attempts == s.run.value.attempts
    ensures t.run.value.stages == s.run.value.stages[i := Finished]
    ensures KeyOf(s, i) in t.run.value.wrote && t.run.value.wrote[KeyOf(s, i)] == WroteGrade
    ensures Get(t.disk.records, KeyOf(s, i)) == Some(Record(Graded, Some(passed), StageOf(s, i).cost, true, None))
  {
    var queued := Apply(s, Enqueue(i));
    steps' := OneMore(specs, steps, s, Enqueue(i));
    t := Apply(queued, GradeHead(Verdict(passed)));
    steps' := OneMore(specs, steps', queued, GradeHead(Verdict(passed)));
    assert t.run.value.stages == s.run.value.stages[i := Finished];
  }

  /** A solve returns and its patch is saved; no record is written. */
  lemma SaveIt(specs: seq<string>, steps: seq<Step>, s: State, i: nat, patch: string, cost: real)
    returns (steps': seq<Step>, t: State)
    requires Reaches(specs, steps, s) && PilotRun.At(s, i) && StageOf(s, i).ToSolve?
    ensures Reaches(specs, steps', t) && PilotRun.At(t, i) && t.run.value.attempts == s.run.value.attempts
    ensures StageOf(t, i) == Saved(patch, cost)
    ensures t.run.value.wrote == s.run.value.wrote && t.disk.records == s.disk.records
  {
    var solved := Apply(s, SolveReturns(i, patch, cost));
    steps' := OneMore(specs, steps, s, SolveReturns(i, patch, cost));
    t := Apply(solved, SavePatch(i));
    steps' := OneMore(specs, steps', solved, SavePatch(i));
  }

  function Get(records: map<string, Record>, key: string): Option<Record> {
    if key in records then Some(records[key]) else None
  }

  /** Two attempts with one key in a configuration: the second one's placeholder replaces the
      grade result of the first. */
  lemma DuplicateKeysLoseAGrade(
    specs: seq<string>, i: nat, j: nat, patch: string, cost: real, passed: bool, patch': string, cost': real)
    returns (steps: seq<Step>)
    requires i < j < |specs| && specs[i] == specs[j]
    ensures Overwrites(specs, steps, j)
    ensures var s := Final(FRESH, steps);
            && Get(s.disk.records, specs[j]) == Some(Record(Graded, Some(passed), cost, true, None))
            && Get(Apply(s, MarkPending(j)).disk.records, specs[j]) == Some(Placeholder(cost'))
  {
    var s;
    steps, s := TwoToSolve(specs, i, j);
    steps, s := BankIt(specs, steps, s, i, patch, cost);
    steps, s := GradeIt(specs, steps, s, i, passed);
    steps, s := SaveIt(specs, steps, s, j, patch', cost');
  }

  // ---------------------------------------------------------------- the exact condition

  /** A configuration can bank an attempt and then solve it again exactly if two of its
      attempts have the same key. */
  lemma PaidAgainIffDuplicate(specs: seq<string>)
    ensures CanPayAgain(specs) <==> !Distinct(specs)
  {
    if !Distinct(specs) {
      var i, j :| 0 <= i < j < |specs| && specs[i] == specs[j];
      var earlier, later := DuplicateKeysPayTwice(specs, i, j, "", 0.0, "", 0.0);
    } else if earlier, later, key, patch, cost :| PaysAgain(specs, earlier, later, key, patch, cost) {
      NotPaidAgain(specs, earlier, later, key, patch, cost);
    }
  }

  lemma NotPaidAgain(specs: seq<string>, earlier: seq<Step>, later: seq<Step>, key: string, patch: string, cost: real)
    requires PaysAgain(specs, earlier, later, key, patch, cost)
    ensures !Distinct(specs)
  {
    if Distinct(specs) {
      InvHistory(FRESH, earlier);
      PaidOnce(Final(FRESH, earlier), later, key, patch, cost);
    }
  }

  /** A placeholder can replace a grade result of its run exactly if two attempts of the
      configuration have the same key. */
  lemma OverwrittenIffDuplicate(specs: seq<string>)
    ensures CanOverwrite(specs) <==> !Distinct(specs)
  {
    if !Distinct(specs) {
      var i, j :| 0 <= i < j < |specs| && specs[i] == specs[j];
      var steps := DuplicateKeysLoseAGrade(specs, i, j, "", 0.0, true, "", 0.0);
    } else if steps, i :| Overwrites(specs, steps, i) {
      NotOverwritten(specs, steps, i);
    }
  }

  lemma NotOverwritten(specs: seq<string>, steps: seq<Step>, i: nat)
    requires Overwrites(specs, steps, i)
    ensures !Distinct(specs)
  {
    if Distinct(specs) {
      PlaceholderComesFirst(steps, i);
    }
  }

  /** In terms of the configuration: its attempts are paid for once, and keep their grades,
      exactly if no instance id and no arm name occurs twice (or there are no attempts). */
  lemma GridPaysOnce(instances: seq<string>, arms: seq<string>, repeats: int)
    requires Specs.PlainArms(arms)
    ensures var specs := Specs.Keys(Specs.Grid(instances, arms, Specs.Count(repeats)));
            var safe := Specs.Trivial(instances, arms, repeats) || (Distinct(instances) && Distinct(arms));
            (!CanPayAgain(specs) <==> safe) && (!CanOverwrite(specs) <==> safe)
  {
    var specs := Specs.Keys(Specs.Grid(instances, arms, Specs.Count(repeats)));
    Specs.GridKeysDistinct(instances, arms, repeats);
    PaidAgainIffDuplicate(specs);
    OverwrittenIffDuplicate(specs);
  }
}
