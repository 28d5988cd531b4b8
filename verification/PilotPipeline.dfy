/** One process of the durable pilot run as an object: the records and patches it writes
    and its grade queue.  Each method is the code between two `await`s and performs steps of
    the run's state machine. */
module PilotPipeline {
  import opened Text
  import opened PilotRun
  import Specs = PilotSpecs

  function Visits(lane: seq<nat>): seq<Step> {
    seq(|lane|, n requires 0 <= n < |lane| => Visit(lane[n]))
  }

  function Misses(lane: seq<nat>): seq<Step> {
    seq(|lane|, n requires 0 <= n < |lane| => MissingRow(lane[n]))
  }

  /** The attempts of a lane that have to be solved, in order. */
  function Unpaid(d: Disk, attempts: seq<string>, snapshot: map<string, Record>, lane: seq<nat>): seq<nat>
    requires forall n :: 0 <= n < |lane| ==> lane[n] < |attempts|
  {
    if lane == [] then []
    else
      var n := |lane| - 1;
      Unpaid(d, attempts, snapshot, lane[..n])
      + if Regradeable(d, snapshot, attempts[lane[n]]) then [] else [lane[n]]
  }

  /** What a returned solve does before the lane goes on: save, mark, queue. */
  function Banking(i: nat, patch: string, cost: real): seq<Step> {
    [SolveReturns(i, patch, cost), SavePatch(i), MarkPending(i), Enqueue(i)]
  }

  /** The state after banking, all at once. */
  function Booked(s: State, i: nat, patch: string, cost: real): State
    requires PilotRun.At(s, i)
  {
    var key, r := KeyOf(s, i), s.run.value;
    State(Disk(s.disk.records[key := Placeholder(cost)], s.disk.patches[key := patch], s.disk.rows),
          Some(r.(stages := r.stages[i := Queued], queue := r.queue + [Job(i, patch, cost)],
                  wrote := r.wrote[key := WrotePlaceholder])),
          s.solves + [Solve(key, patch, cost)])
  }

  lemma BankingRuns(s: State, i: nat, patch: string, cost: real)
    requires Enabled(s, SolveReturns(i, patch, cost))
    ensures IsHistory(s, Banking(i, patch, cost)) && Final(s, Banking(i, patch, cost)) == Booked(s, i, patch, cost)
  {
    var steps := Banking(i, patch, cost);
    HistoryExtends(s, [], steps[0]);
    HistoryExtends(s, [] + [steps[0]], steps[1]);
    HistoryExtends(s, [] + [steps[0]] + [steps[1]], steps[2]);
    HistoryExtends(s, [] + [steps[0]] + [steps[1]] + [steps[2]], steps[3]);
    assert steps == [] + [steps[0]] + [steps[1]] + [steps[2]] + [steps[3]];
    var t := Final(s, steps);
    assert t.run.value.stages == s.run.value.stages[i := Queued];
  }

  /** One more visit of a lane: the history grows by it. */
  lemma LaneGoesOn(start: State, s: State, lane: seq<nat>, n: nat)
    requires n < |lane| && IsHistory(start, Visits(lane[..n])) && Final(start, Visits(lane[..n])) == s
    requires Enabled(s, Visit(lane[n]))
    ensures IsHistory(start, Visits(lane[..n + 1])) && Final(start, Visits(lane[..n + 1])) == Apply(s, Visit(lane[n]))
  {
    HistoryExtends(start, Visits(lane[..n]), Visit(lane[n]));
    assert Visits(lane[..n + 1]) == Visits(lane[..n]) + [Visit(lane[n])];
  }

  /** Visiting one attempt leaves the visits of the others possible. */
  lemma OthersStayPossible(s: State, lane: seq<nat>, n: nat)
    requires n < |lane| && Distinct(lane) && forall m :: n <= m < |lane| ==> Enabled(s, Visit(lane[m]))
    ensures forall m :: n < m < |lane| ==> Enabled(Apply(s, Visit(lane[n])), Visit(lane[m]))
  {
  }

  lemma UnpaidGoesOn(d: Disk, attempts: seq<string>, snapshot: map<string, Record>, lane: seq<nat>, n: nat)
    requires n < |lane| && forall m :: 0 <= m < |lane| ==> lane[m] < |attempts|
    ensures Unpaid(d, attempts, snapshot, lane[..n + 1])
            == Unpaid(d, attempts, snapshot, lane[..n])
               + if Regradeable(d, snapshot, attempts[lane[n]]) then [] else [lane[n]]
  {
    assert lane[..n + 1][..n] == lane[..n];
  }

  class Pipeline {
    const attempts: seq<string>
    const snapshot: map<string, Record>
    const rows: set<string>
    var records: map<string, Record>
    var patches: map<string, string>
    var queue: seq<Job>
    // where each attempt's code stands, what this run wrote last, and the solver's bill
    ghost var stages: seq<Stage>
    ghost var wrote: map<string, Written>
    ghost var solves: seq<Solve>

    ghost function Value(): State
      reads this
    {
      State(Disk(records, patches, rows), Some(Run(attempts, stages, snapshot, queue, wrote)), solves)
    }

    /** A process starts: it loads the records and selects what to run. */
    constructor (disk: Disk, specs: seq<string>, rows: set<string>, retryErrors: bool, limit: Option<int>,
        ghost solves: seq<Solve>)
      ensures Value() == Begun(State(disk, None, solves), specs, rows, retryErrors, limit)
    {
      var selected := SelectRunnableAttempts(specs, disk.records, retryErrors, limit);
      attempts, snapshot, this.rows := selected, disk.records, rows;
      records, patches, queue := disk.records, disk.patches, [];
      stages, wrote := seq(|selected|, _ => Unvisited), map[];
      this.solves := solves;
    }

    /** One round of the lane's first loop. */
    method Classify(i: nat) returns (mustSolve: bool)
      requires Enabled(Value(), Visit(i))
      modifies this
      ensures Value() == Apply(old(Value()), Visit(i))
      ensures mustSolve <==> !Regradeable(old(Value().disk), snapshot, attempts[i])
      ensures records == old(records) && patches == old(patches)
    {
      var key := attempts[i];
      var regradeable := key in snapshot && (snapshot[key].status == GradeError || snapshot[key].status == Ungradeable);
      mustSolve := !regradeable || !snapshot[key].hasPatch || key !in patches;
      if mustSolve {
        stages := stages[i := ToSolve];
      } else {
        stages := stages[i := Queued];
        queue := queue + [Job(i, patches[key], snapshot[key].cost)];
      }
    }

    /** The lane's first loop: saved patches go to the queue, the rest is to be solved. */
    method ClassifyLane(lane: seq<nat>) returns (toSolve: seq<nat>)
      requires Distinct(lane) && forall n :: 0 <= n < |lane| ==>
          lane[n] < |attempts| && Enabled(Value(), Visit(lane[n]))
      modifies this
      ensures IsHistory(old(Value()), Visits(lane)) && Value() == Final(old(Value()), Visits(lane))
      ensures toSolve == Unpaid(old(Value().disk), attempts, snapshot, lane)
      ensures records == old(records) && patches == old(patches)
    {
      toSolve := [];
      ghost var start := Value();
      for n := 0 to |lane|
        invariant records == old(records) && patches == old(patches)
        invariant IsHistory(start, Visits(lane[..n])) && Value() == Final(start, Visits(lane[..n]))
        invariant forall m :: n <= m < |lane| ==> Enabled(Value(), Visit(lane[m]))
        invariant toSolve == Unpaid(start.disk, attempts, snapshot, lane[..n])
      {
        LaneGoesOn(start, Value(), lane, n);
        OthersStayPossible(Value(), lane, n);
        UnpaidGoesOn(start.disk, attempts, snapshot, lane, n);
        var mustSolve := Classify(lane[n]);
        if mustSolve {
          toSolve := toSolve + [lane[n]];
        }
      }
      assert lane[..|lane|] == lane;
    }

    /** A solve returned: patch, placeholder and queued grade, in this order. */
    method FinishSolve(i: nat, patch: string, cost: real)
      requires Enabled(Value(), SolveReturns(i, patch, cost))
      modifies this
      ensures IsHistory(old(Value()), Banking(i, patch, cost))
      ensures Value() == Final(old(Value()), Banking(i, patch, cost))
    {
      BankingRuns(Value(), i, patch, cost);
      var key := attempts[i];
      solves := solves + [Solve(key, patch, cost)];
      patches := patches[key := patch];
      records := records[key := Placeholder(cost)];
      wrote := wrote[key := WrotePlaceholder];
      queue := queue + [Job(i, patch, cost)];
      stages := stages[i := Queued];
    }

    /** A lane whose instance has no frozen row: every attempt becomes a solve error. */
    method FailLane(lane: seq<nat>)
      requires Distinct(lane)
      requires forall n :: 0 <= n < |lane| ==> lane[n] < |attempts| && Enabled(Value(), MissingRow(lane[n]))
      modifies this
      ensures IsHistory(old(Value()), Misses(lane)) && Value() == Final(old(Value()), Misses(lane))
    {
      ghost var start := Value();
      for n := 0 to |lane|
        invariant IsHistory(start, Misses(lane[..n])) && Value() == Final(start, Misses(lane[..n]))
        invariant forall m :: n <= m < |lane| ==> Enabled(Value(), MissingRow(lane[m]))
      {
        HistoryExtends(start, Misses(lane[..n]), MissingRow(lane[n]));
        assert Misses(lane[..n + 1]) == Misses(lane[..n]) + [MissingRow(lane[n])];
        FailSolve(lane[n], "missing frozen instance " + Specs.InstanceOf(attempts[lane[n]]));
      }
      assert lane[..|lane|] == lane;
    }

    /** Recording a solve error: what a failed solve and a missing row both do. */
    method FailSolve(i: nat, error: string)
      requires i < |attempts| == |stages|
      modifies this
      ensures Value() == Recorded(old(Value()), i, Finished, SolveFailure(error), WroteSolveError)
    {
      records := records[attempts[i] := SolveFailure(error)];
      wrote := wrote[attempts[i] := WroteSolveError];
      stages := stages[i := Finished];
    }

    /** The queue's next job ends: its result replaces the record, with the cost it carried. */
    method GradeNext(grade: Grade)
      requires Enabled(Value(), GradeHead(grade))
      modifies this
      ensures Value() == Apply(old(Value()), GradeHead(grade))
    {
      var job := queue[0];
      queue := queue[1..];
      var record :=
        match grade
        case Verdict(passed) => Record(Graded, Some(passed), job.cost, true, None)
        case CouldNotGrade => Record(Ungradeable, None, job.cost, true, None)
        case GradeThrows(error) => Record(GradeError, None, job.cost, true, Some(error));
      records := records[attempts[job.attempt] := record];
      wrote := wrote[attempts[job.attempt] := WroteGrade];
      stages := stages[job.attempt := Finished];
    }
  }
}
