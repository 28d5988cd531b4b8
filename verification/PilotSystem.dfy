/** Store and runs together: starts that may be cut off between their writes, each followed
    by a run over the attempts and frozen rows it prepared, with crashes anywhere. */
module PilotSystem {
  import opened Text
  import Store = PilotStore
  import Run = PilotRun
  import Specs = PilotSpecs
  import Duplicates = PilotDuplicates

  datatype State = State(store: Store.Disk, runs: Run.State)

  datatype Step =
    | Launch(start: Store.Start, retryErrors: bool, limit: Option<int>)
    | Work(step: Run.Step)

  const FRESH := State(Store.EMPTY_DISK, Run.FRESH)

  function InstanceIds(refs: seq<Store.Ref>): seq<string> {
    seq(|refs|, i requires 0 <= i < |refs| => refs[i].id)
  }

  function ArmNames(arms: seq<(string, seq<string>)>): seq<string> {
    seq(|arms|, i requires 0 <= i < |arms| => arms[i].0)
  }

  /** The attempt keys of a configuration. */
  function AttemptsOf(m: Store.Manifest): seq<string> {
    Specs.Keys(Specs.Grid(InstanceIds(m.instances), ArmNames(m.settings.arms), Specs.Count(m.settings.repeats)))
  }

  function Ids(rows: seq<Store.Row>): set<string> {
    set n | 0 <= n < |rows| :: rows[n].ref.id
  }

  /** The start goes through: it proceeds and all its writes happen. */
  predicate GoesThrough(d: Store.Disk, start: Store.Start) {
    var plan := Store.PlanOf(d, start.request, start.fetch);
    plan.Proceeds? && |plan.writes| <= start.writes
  }

  function BeginOf(d: Store.Disk, step: Step): Run.Step
    requires step.Launch? && GoesThrough(d, step.start)
  {
    var plan := Store.PlanOf(d, step.start.request, step.start.fetch);
    Run.Begin(AttemptsOf(plan.config), Ids(plan.rows), step.retryErrors, step.limit)
  }

  predicate Enabled(s: State, step: Step) {
    match step
    case Launch(_, _, _) => s.runs.run.None?
    case Work(w) => !w.Begin? && Run.Enabled(s.runs, w)
  }

  function Apply(s: State, step: Step): State
    requires Enabled(s, step)
  {
    match step
    case Launch(start, retryErrors, limit) =>
      var plan := Store.PlanOf(s.store, start.request, start.fetch);
      State(Store.AfterStart(s.store, start),
            if GoesThrough(s.store, start) then
              Run.Begun(s.runs, AttemptsOf(plan.config), Ids(plan.rows), retryErrors, limit)
            else s.runs)
    case Work(w) => s.(runs := Run.Apply(s.runs, w))
  }

  predicate IsHistory(s: State, steps: seq<Step>)
    decreases |steps|
  {
    steps == [] || (Enabled(s, steps[0]) && IsHistory(Apply(s, steps[0]), steps[1..]))
  }

  function Final(s: State, steps: seq<Step>): State
    requires IsHistory(s, steps)
    decreases |steps|
  {
    if steps == [] then s else Final(Apply(s, steps[0]), steps[1..])
  }

  // ---------------------------------------------------------------- configurations

  /** Arm names are distinct and hold no colon, as the parser of the arms file demands. */
  ghost predicate GoodArms(settings: Store.Settings) {
    Specs.PlainArms(ArmNames(settings.arms)) && Distinct(ArmNames(settings.arms))
  }

  /** The assumption on a start: it names no instance id twice. */
  ghost predicate GoodStep(step: Step) {
    step.Launch? ==> GoodArms(step.start.request.settings) && Distinct(InstanceIds(step.start.request.instances))
  }

  ghost predicate GoodHistory(steps: seq<Step>) {
    forall i :: 0 <= i < |steps| ==> GoodStep(steps[i])
  }

  ghost predicate GoodManifest(m: Store.Manifest) {
    GoodArms(m.settings) && Distinct(InstanceIds(m.instances))
  }

  /** The rows the runs have seen are in the store. */
  ghost predicate Linked(s: State) {
    s.runs.disk.rows == {} || (s.store.frozen.Some? && s.runs.disk.rows <= Ids(s.store.frozen.value))
  }

  ghost predicate Inv(s: State) {
    && Store.Inv(s.store)
    && Run.Inv(s.runs)
    && Linked(s)
    && (s.store.manifest.Some? ==> GoodManifest(s.store.manifest.value))
  }

  lemma IdsGrow(rows: seq<Store.Row>, more: seq<Store.Row>)
    requires rows <= more
    ensures Ids(rows) <= Ids(more)
  {
    forall id | id in Ids(rows)
      ensures id in Ids(more)
    {
      var n :| 0 <= n < |rows| && rows[n].ref.id == id;
      assert more[n] == rows[n];
    }
  }

  /** What a start leaves in the store, when it goes through and when it does not. */
  lemma StoreAfter(d: Store.Disk, start: Store.Start)
    requires Store.Inv(d)
    ensures var d' := Store.AfterStart(d, start);
            var plan := Store.PlanOf(d, start.request, start.fetch);
            && Store.Inv(d') && Store.Extends(d, d')
            && (d'.manifest == d.manifest || (plan.Proceeds? && d'.manifest == Some(plan.config)))
            && (GoesThrough(d, start) ==> d'.frozen == Some(plan.rows))
  {
    Store.StartKeepsInv(d, start);
    Store.DiskAfter(d, start);
  }

  lemma ConfigIsGood(s: State, step: Step)
    requires Inv(s) && step.Launch? && GoodStep(step)
    requires Store.PlanOf(s.store, step.start.request, step.start.fetch).Proceeds?
    ensures GoodManifest(Store.PlanOf(s.store, step.start.request, step.start.fetch).config)
  {
  }

  /** Attempts of a good configuration have distinct keys. */
  lemma AttemptsDistinct(m: Store.Manifest)
    requires GoodManifest(m)
    ensures Distinct(AttemptsOf(m))
  {
    Specs.GridKeysDistinct(InstanceIds(m.instances), ArmNames(m.settings.arms), m.settings.repeats);
  }

  /** A start that goes through is a proper Begin step of the runs: rows only ever grow. */
  lemma LaunchIsBegin(s: State, step: Step)
    requires Inv(s) && Enabled(s, step) && GoodStep(step) && step.Launch? && GoesThrough(s.store, step.start)
    ensures Run.Enabled(s.runs, BeginOf(s.store, step)) && Run.Proper(BeginOf(s.store, step))
    ensures Apply(s, step).runs == Run.Apply(s.runs, BeginOf(s.store, step))
  {
    var plan := Store.PlanOf(s.store, step.start.request, step.start.fetch);
    Store.PlanIsCovered(s.store, step.start.request, step.start.fetch);
    if s.store.frozen.Some? {
      IdsGrow(s.store.frozen.value, plan.rows);
    }
    ConfigIsGood(s, step);
    AttemptsDistinct(plan.config);
  }

  lemma InvLaunch(s: State, step: Step)
    requires Inv(s) && Enabled(s, step) && GoodStep(step) && step.Launch?
    ensures Inv(Apply(s, step))
  {
    StoreAfter(s.store, step.start);
    var plan := Store.PlanOf(s.store, step.start.request, step.start.fetch);
    if plan.Proceeds? {
      ConfigIsGood(s, step);
    }
    if GoesThrough(s.store, step.start) {
      LaunchIsBegin(s, step);
      Run.InvStep(s.runs, BeginOf(s.store, step));
    } else if s.store.frozen.Some? {
      IdsGrow(s.store.frozen.value, Apply(s, step).store.frozen.value);
    }
  }

  lemma InvStep(s: State, step: Step)
    requires Inv(s) && Enabled(s, step) && GoodStep(step)
    ensures Inv(Apply(s, step))
  {
    if step.Launch? {
      InvLaunch(s, step);
    } else {
      Run.InvStep(s.runs, step.step);
    }
  }

  lemma {:induction false} InvHistory(s: State, steps: seq<Step>)
    requires Inv(s) && IsHistory(s, steps) && GoodHistory(steps)
    ensures Inv(Final(s, steps))
    decreases |steps|
  {
    if steps != [] {
      InvStep(s, steps[0]);
      InvHistory(Apply(s, steps[0]), steps[1..]);
    }
  }

  // ---------------------------------------------------------------- paid once

  lemma BankedStep(s: State, step: Step, key: string, patch: string, cost: real)
    requires Inv(s) && Enabled(s, step) && GoodStep(step) && Run.Banked(s.runs.disk, key, patch, cost)
    ensures Run.Banked(Apply(s, step).runs.disk, key, patch, cost)
    ensures Run.SolveCount(Apply(s, step).runs.solves, key) == Run.SolveCount(s.runs.solves, key)
  {
    if step.Work? {
      Run.BankedStep(s.runs, step.step, key, patch, cost);
    } else if GoesThrough(s.store, step.start) {
      LaunchIsBegin(s, step);
      Run.BankedStep(s.runs, BeginOf(s.store, step), key, patch, cost);
    }
  }

  lemma {:induction false} BankedStaysBanked(s: State, steps: seq<Step>, key: string, patch: string, cost: real)
    requires Inv(s) && IsHistory(s, steps) && GoodHistory(steps) && Run.Banked(s.runs.disk, key, patch, cost)
    ensures Run.Banked(Final(s, steps).runs.disk, key, patch, cost)
    ensures Run.SolveCount(Final(s, steps).runs.solves, key) == Run.SolveCount(s.runs.solves, key)
    decreases |steps|
  {
    if steps != [] {
      BankedStep(s, steps[0], key, patch, cost);
      InvStep(s, steps[0]);
      BankedStaysBanked(Apply(s, steps[0]), steps[1..], key, patch, cost);
    }
  }

  /** Over every history of starts, slate extensions, torn writes, crashes and runs: once an
      attempt's patch and record are on disk it is never solved again, and it keeps cost and
      patch.  The only demand is that no start names an instance id twice. */
  lemma SolvesArePaidOnce(earlier: seq<Step>, later: seq<Step>, key: string, patch: string, cost: real)
    requires IsHistory(FRESH, earlier) && GoodHistory(earlier)
    requires IsHistory(Final(FRESH, earlier), later) && GoodHistory(later)
    requires Run.Banked(Final(FRESH, earlier).runs.disk, key, patch, cost)
    ensures var s := Final(FRESH, earlier);
            && Run.Banked(Final(s, later).runs.disk, key, patch, cost)
            && Run.SolveCount(Final(s, later).runs.solves, key) == Run.SolveCount(s.runs.solves, key)
  {
    InvHistory(FRESH, earlier);
    BankedStaysBanked(Final(FRESH, earlier), later, key, patch, cost);
  }

  // ---------------------------------------------------------------- every attempt finds its row

  ghost predicate PlainRefs(refs: seq<Store.Ref>) {
    forall i :: 0 <= i < |refs| ==> Store.PlainRef(refs[i])
  }

  ghost predicate PlainStep(step: Step) {
    step.Launch? ==>
      PlainRefs(step.start.request.instances) && Specs.PlainArms(ArmNames(step.start.request.settings.arms))
  }

  ghost predicate PlainHistory(steps: seq<Step>) {
    forall i :: 0 <= i < |steps| ==> PlainStep(steps[i])
  }

  ghost predicate RowsInv(s: State) {
    && Store.Inv(s.store)
    && (s.store.manifest.Some? ==> PlainRefs(s.store.manifest.value.instances))
    && (s.runs.run.Some? ==> RowsFound(s.runs.disk, s.runs.run.value.attempts))
  }

  ghost predicate RowsFound(d: Run.Disk, keys: seq<string>) {
    forall i :: 0 <= i < |keys| ==> Run.HasRow(d, keys[i])
  }

  /** The rows a start prepares are those of all attempts of its configuration. */
  lemma ConfigHasRows(m: Store.Manifest, rows: seq<Store.Row>, d: Run.Disk)
    requires PlainRefs(m.instances) && Specs.PlainArms(ArmNames(m.settings.arms))
    requires Store.CoversIds(rows, m.instances) && d.rows == Ids(rows)
    ensures RowsFound(d, AttemptsOf(m))
  {
    var ids, arms, n := InstanceIds(m.instances), ArmNames(m.settings.arms), Specs.Count(m.settings.repeats);
    var specs := Specs.Grid(ids, arms, n);
    forall i | 0 <= i < |AttemptsOf(m)|
      ensures Run.HasRow(d, AttemptsOf(m)[i])
    {
      Specs.InGrid(ids, arms, n, specs[i]);
      Specs.InstanceOfKey(specs[i]);
      var k :| 0 <= k < |ids| && ids[k] == specs[i].instance;
      assert Store.HasId(rows, m.instances[k].id);
    }
  }

  lemma SelectedHaveRows(
    d: Run.Disk, specs: seq<string>, records: map<string, Run.Record>, retryErrors: bool, limit: Option<int>)
    requires RowsFound(d, specs)
    ensures RowsFound(d, Run.Selection(specs, records, retryErrors, limit))
  {
    Run.FilteredFacts(specs, records, retryErrors);
    var all := Run.Filtered(specs, records, retryErrors);
    forall i | 0 <= i < |all|
      ensures Run.HasRow(d, all[i])
    {
      assert all[i] in specs;
    }
  }

  lemma ConfigIsPlain(s: State, step: Step)
    requires RowsInv(s) && step.Launch? && PlainStep(step)
    requires Store.PlanOf(s.store, step.start.request, step.start.fetch).Proceeds?
    ensures var config := Store.PlanOf(s.store, step.start.request, step.start.fetch).config;
            PlainRefs(config.instances) && Specs.PlainArms(ArmNames(config.settings.arms))
  {
  }

  lemma LaunchHasRows(s: State, step: Step)
    requires RowsInv(s) && Enabled(s, step) && PlainStep(step)
    requires step.Launch? && GoesThrough(s.store, step.start)
    ensures var t := Apply(s, step).runs; t.run.Some? && RowsFound(t.disk, t.run.value.attempts)
  {
    var plan := Store.PlanOf(s.store, step.start.request, step.start.fetch);
    var t := Apply(s, step).runs;
    Store.PlanIsCovered(s.store, step.start.request, step.start.fetch);
    ConfigIsPlain(s, step);
    ConfigHasRows(plan.config, plan.rows, t.disk);
    SelectedHaveRows(t.disk, AttemptsOf(plan.config), s.runs.disk.records, step.retryErrors, step.limit);
  }

  lemma RowsLaunch(s: State, step: Step)
    requires RowsInv(s) && Enabled(s, step) && PlainStep(step) && step.Launch?
    ensures RowsInv(Apply(s, step))
  {
    StoreAfter(s.store, step.start);
    if Store.PlanOf(s.store, step.start.request, step.start.fetch).Proceeds? {
      ConfigIsPlain(s, step);
    }
    if GoesThrough(s.store, step.start) {
      LaunchHasRows(s, step);
    }
  }

  lemma WorkKeepsAttempts(s: Run.State, w: Run.Step)
    requires Run.Enabled(s, w) && !w.Begin?
    ensures var t := Run.Apply(s, w); t.run.Some? ==> s.run.Some? && t.run.value.attempts == s.run.value.attempts
  {
  }

  lemma RowsStep(s: State, step: Step)
    requires RowsInv(s) && Enabled(s, step) && PlainStep(step)
    ensures RowsInv(Apply(s, step))
  {
    if step.Work? {
      WorkKeepsAttempts(s.runs, step.step);
    } else {
      RowsLaunch(s, step);
    }
  }

  lemma {:induction false} RowsHistory(s: State, steps: seq<Step>)
    requires RowsInv(s) && IsHistory(s, steps) && PlainHistory(steps)
    ensures RowsInv(Final(s, steps))
    decreases |steps|
  {
    if steps != [] {
      RowsStep(s, steps[0]);
      RowsHistory(Apply(s, steps[0]), steps[1..]);
    }
  }

  /** Over every history whose references hold no bar (and whose arm names hold no colon), no
      attempt is ever without its frozen row: the branch for a missing one is dead. */
  lemma NoAttemptMissesItsRow(steps: seq<Step>, i: nat)
    requires IsHistory(FRESH, steps) && PlainHistory(steps)
    ensures !Enabled(Final(FRESH, steps), Work(Run.MissingRow(i)))
  {
    RowsHistory(FRESH, steps);
  }

  // ---------------------------------------------------------------- exactly which attempts can miss their row

  /** Settings that the parser accepts and that give every instance an attempt. */
  ghost predicate Usable(settings: Store.Settings) {
    GoodArms(settings) && settings.arms != [] && settings.repeats > 0
  }

  ghost predicate UsesSettings(step: Step, settings: Store.Settings) {
    step.Launch? ==> step.start.request.settings == settings
  }

  /** After some history of these settings a start with `r` in its slate goes through, and
      attempt i of its run is one of `r` that finds no frozen row. */
  ghost predicate MissesRow(settings: Store.Settings, earlier: seq<Step>, launch: Step, r: Store.Ref, i: nat) {
    && (forall n :: 0 <= n < |earlier| ==> UsesSettings(earlier[n], settings))
    && IsHistory(FRESH, earlier)
    && launch.Launch? && UsesSettings(launch, settings)
    && Enabled(Final(FRESH, earlier), launch)
    && GoesThrough(Final(FRESH, earlier).store, launch.start)
    && r in Store.PlanOf(Final(FRESH, earlier).store, launch.start.request, launch.start.fetch).config.instances
    && var t := Apply(Final(FRESH, earlier), launch);
       && Enabled(t, Work(Run.MissingRow(i)))
       && Specs.InstanceOf(Run.KeyOf(t.runs, i)) == r.id
  }

  ghost predicate CanMissRow(settings: Store.Settings, r: Store.Ref) {
    exists earlier, launch, i :: MissesRow(settings, earlier, launch, r, i)
  }

  lemma {:induction false} StoreStaysConsistent(s: State, steps: seq<Step>)
    requires Store.Inv(s.store) && IsHistory(s, steps)
    ensures Store.Inv(Final(s, steps).store)
    decreases |steps|
  {
    if steps != [] {
      if steps[0].Launch? {
        Store.StartKeepsInv(s.store, steps[0].start);
      }
      StoreStaysConsistent(Apply(s, steps[0]), steps[1..]);
    }
  }

  lemma PlainMissesNoRow(settings: Store.Settings, earlier: seq<Step>, launch: Step, r: Store.Ref, i: nat)
    requires MissesRow(settings, earlier, launch, r, i)
    ensures !Store.PlainRef(r)
  {
    var s := Final(FRESH, earlier);
    StoreStaysConsistent(FRESH, earlier);
    if Store.PlainRef(r) {
      Store.PlanHasRow(s.store, launch.start.request, launch.start.fetch, r);
    }
  }

  function SlateStart(settings: Store.Settings, refs: seq<Store.Ref>): Store.Start {
    Store.Start(Store.Request(true, refs, settings, None, None), Store.Always, 2)
  }

  lemma {:induction false} HistoryExtends(s: State, steps: seq<Step>, step: Step)
    requires IsHistory(s, steps) && Enabled(Final(s, steps), step)
    ensures IsHistory(s, steps + [step]) && Final(s, steps + [step]) == Apply(Final(s, steps), step)
    decreases |steps|
  {
    if steps == [] {
      assert [step][1..] == [];
    } else {
      HistoryExtends(Apply(s, steps[0]), steps[1..], step);
      assert (steps + [step])[0] == steps[0] && (steps + [step])[1..] == steps[1..] + [step];
    }
  }

  function StoreOf(settings: Store.Settings, ref: Store.Ref): Store.Disk {
    Store.Disk(Some(Store.Manifest([ref], settings, None, None)), Some([Store.Row(ref, "")]))
  }

  lemma StartedStore(settings: Store.Settings, ref: Store.Ref)
    ensures Store.AfterStart(Store.EMPTY_DISK, SlateStart(settings, [ref])) == StoreOf(settings, ref)
  {
    var start := SlateStart(settings, [ref]);
    Store.FirstStart(ref, settings);
    assert [start][1..] == [];
    assert Store.After(Store.AfterStart(Store.EMPTY_DISK, start), []) == Store.AfterStart(Store.EMPTY_DISK, start);
  }

  /** A slate with only the twin of `r`, started and crashed. */
  lemma TwinStarted(settings: Store.Settings, twin: Store.Ref) returns (steps: seq<Step>)
    ensures IsHistory(FRESH, steps) && forall n :: 0 <= n < |steps| ==> UsesSettings(steps[n], settings)
    ensures var s := Final(FRESH, steps);
            s.store == StoreOf(settings, twin) && s.runs.run.None? && s.runs.disk.records == map[]
  {
    StartedStore(settings, twin);
    Store.FirstPlan(twin, settings);
    var launch, crash := Launch(SlateStart(settings, [twin]), false, None), Work(Run.Crash);
    HistoryExtends(FRESH, [], launch);
    HistoryExtends(FRESH, [] + [launch], crash);
    steps := [] + [launch] + [crash];
  }

  /** Every instance of a usable configuration has an attempt. */
  lemma AttemptOf(m: Store.Manifest, k: nat) returns (i: nat)
    requires Usable(m.settings) && k < |m.instances|
    ensures i < |AttemptsOf(m)| && Specs.InstanceOf(AttemptsOf(m)[i]) == m.instances[k].id
  {
    var ids, arms, n := InstanceIds(m.instances), ArmNames(m.settings.arms), Specs.Count(m.settings.repeats);
    var spec := Specs.Spec(ids[k], arms[0], 0);
    Specs.InGrid(ids, arms, n, spec);
    var specs := Specs.Grid(ids, arms, n);
    i :| 0 <= i < |specs| && specs[i] == spec;
    Specs.InstanceOfKey(spec);
  }

  /** The run of the slate extended by `r`: no row is fetched, all attempts are selected. */
  lemma ExtensionRuns(settings: Store.Settings, r: Store.Ref, twin: Store.Ref, s: State)
    requires Store.RefKey(twin) == Store.RefKey(r)
    requires s.store == StoreOf(settings, twin) && s.runs.run.None? && s.runs.disk.records == map[]
    ensures var launch := Launch(SlateStart(settings, [twin, r]), false, None);
            var config := Store.Manifest([twin, r], settings, None, None);
            && Enabled(s, launch) && GoesThrough(s.store, launch.start)
            && Store.PlanOf(s.store, launch.start.request, launch.start.fetch).config == config
            && Apply(s, launch).runs == Run.Begun(s.runs, AttemptsOf(config), {twin.id}, false, None)
  {
    var rows := [Store.Row(twin, "")];
    Store.ExtensionProceeds(r, twin, settings, rows);
    assert Ids(rows) == {twin.id} by {
      assert rows[0].ref.id == twin.id;
    }
  }

  lemma AllSelected(s: Run.State, specs: seq<string>, rows: set<string>, i: nat)
    requires s.disk.records == map[] && i < |specs| && Specs.InstanceOf(specs[i]) !in rows
    ensures var t := Run.Begun(s, specs, rows, false, None);
            && t.run.Some? && t.run.value.attempts == specs
            && Run.Enabled(t, Run.MissingRow(i))
  {
    Duplicates.NothingFiltered(specs);
  }

  lemma TwinHidesRow(settings: Store.Settings, r: Store.Ref, twin: Store.Ref)
    requires Usable(settings) && Store.RefKey(twin) == Store.RefKey(r) && twin.id != r.id
    ensures CanMissRow(settings, r)
  {
    var earlier := TwinStarted(settings, twin);
    var s := Final(FRESH, earlier);
    var config := Store.Manifest([twin, r], settings, None, None);
    ExtensionRuns(settings, r, twin, s);
    var i := AttemptOf(config, 1);
    AllSelected(s.runs, AttemptsOf(config), {twin.id}, i);
    assert [twin, r][1] == r;
    assert MissesRow(settings, earlier, Launch(SlateStart(settings, [twin, r]), false, None), r, i);
  }

  /** For all settings with attempts: an attempt of a reference can miss its frozen row exactly
      if a field of the reference holds a bar. */
  lemma RowMissedIffBar(settings: Store.Settings, r: Store.Ref)
    requires Usable(settings)
    ensures CanMissRow(settings, r) <==> !Store.PlainRef(r)
  {
    if !Store.PlainRef(r) {
      var twin := Store.Twin(r);
      TwinHidesRow(settings, r, twin);
    } else if earlier, launch, i :| MissesRow(settings, earlier, launch, r, i) {
      PlainMissesNoRow(settings, earlier, launch, r, i);
    }
  }
}
