/** The durable pilot store: a manifest and the frozen instance rows on disk, prepared at
    every start and extended by larger slates, with crashes between any two writes. */
module PilotStore {
  import opened Text

  datatype Ref = Ref(id: string, dataset: string, split: string)

  /** `instanceRefKey` */
  function RefKey(r: Ref): string {
    r.id + "|" + r.dataset + "|" + r.split
  }

  datatype Row = Row(ref: Ref, content: string)

  /** The settings that must be the same at every start. */
  datatype Settings = Settings(
    repeats: int, arms: seq<(string, seq<string>)>, maxTurns: int, gradeTimeoutMs: int,
    dryRun: bool, skillsNudge: bool, provider: Option<string>, model: Option<string>)

  datatype Manifest = Manifest(instances: seq<Ref>, settings: Settings, taskSource: Option<string>,
      slateHash: Option<string>)

  /** A start without `--force`: the selected instances, and whether they were given explicitly. */
  datatype Request = Request(
    explicit: bool, instances: seq<Ref>, settings: Settings, taskSource: Option<string>, slateHash: Option<string>)

  datatype Disk = Disk(manifest: Option<Manifest>, frozen: Option<seq<Row>>)

  const EMPTY_DISK := Disk(None, None)

  datatype Write = WriteManifest(manifest: Manifest) | WriteFrozen(rows: seq<Row>)

  function Perform(d: Disk, w: Write): Disk {
    match w
    case WriteManifest(m) => d.(manifest := Some(m))
    case WriteFrozen(rows) => d.(frozen := Some(rows))
  }

  function PerformAll(d: Disk, writes: seq<Write>): Disk
    decreases |writes|
  {
    if writes == [] then d else PerformAll(Perform(d, writes[0]), writes[1..])
  }

  /** Fetching a row may fail, and differently at every start. */
  type Fetch = Ref -> Option<string>

  function Freeze(refs: seq<Ref>, fetch: Fetch): (r: Option<seq<Row>>)
    ensures r.Some? ==> |r.value| == |refs| && forall i :: 0 <= i < |refs| ==> r.value[i].ref == refs[i]
  {
    if refs == [] then Some([])
    else
      var rest := Freeze(refs[..|refs| - 1], fetch);
      var last := fetch(refs[|refs| - 1]);
      if rest.None? || last.None? then None else Some(rest.value + [Row(refs[|refs| - 1], last.value)])
  }

  predicate InKeys(refs: seq<Ref>, key: string) {
    exists i :: 0 <= i < |refs| && RefKey(refs[i]) == key
  }

  function NewRefs(requested: seq<Ref>, frozen: seq<Ref>): seq<Ref> {
    if requested == [] then []
    else
      (if InKeys(frozen, RefKey(requested[0])) then [] else [requested[0]]) + NewRefs(requested[1..], frozen)
  }

  /** `assertCompatiblePilotManifest`: instances may only be added, settings not changed. */
  predicate Compatible(frozen: Manifest, requested: Manifest) {
    && (forall i :: 0 <= i < |frozen.instances| ==> InKeys(requested.instances, RefKey(frozen.instances[i])))
    && frozen.settings == requested.settings
    && (frozen.taskSource.Some? ==> frozen.taskSource == requested.taskSource)
    && (frozen.slateHash.Some? ==> frozen.slateHash == requested.slateHash)
  }

  /** What a start does: refuse, or perform these writes in order and run with these rows. */
  datatype Plan = Refuses | Proceeds(writes: seq<Write>, config: Manifest, rows: seq<Row>)

  function ConfigFor(r: Request, existing: Option<Manifest>): Manifest {
    if existing.Some? && !r.explicit then
      Manifest(existing.value.instances, r.settings, existing.value.taskSource, existing.value.slateHash)
    else
      Manifest(r.instances, r.settings, r.taskSource, r.slateHash)
  }

  function PlanOf(d: Disk, r: Request, fetch: Fetch): Plan {
    var config := ConfigFor(r, d.manifest);
    if d.manifest.Some? then
      if !Compatible(d.manifest.value, config) || d.frozen.None? then Refuses
      else
        var newRefs := NewRefs(config.instances, d.manifest.value.instances);
        if newRefs == [] then Proceeds([], config, d.frozen.value)
        else
          var rows := Freeze(newRefs, fetch);
          if rows.None? then Refuses
          else
            var merged := d.frozen.value + rows.value;
            Proceeds([WriteFrozen(merged), WriteManifest(config)], config, merged)
    else
      var rows := Freeze(config.instances, fetch);
      if rows.None? then Refuses
      else Proceeds([WriteManifest(config), WriteFrozen(rows.value)], config, rows.value)
  }

  /** One start, cut off after at most `writes` of its writes. */
  datatype Start = Start(request: Request, fetch: Fetch, writes: nat)

  function Cut(writes: seq<Write>, k: nat): seq<Write> {
    if k < |writes| then writes[..k] else writes
  }

  function AfterStart(d: Disk, s: Start): Disk {
    var plan := PlanOf(d, s.request, s.fetch);
    if plan.Refuses? then d else PerformAll(d, Cut(plan.writes, s.writes))
  }

  function After(d: Disk, history: seq<Start>): Disk
    decreases |history|
  {
    if history == [] then d else After(AfterStart(d, history[0]), history[1..])
  }

  // ---------------------------------------------------------------- consistency

  /** There is a frozen row for every instance. */
  ghost predicate Covers(rows: seq<Row>, refs: seq<Ref>) {
    forall i :: 0 <= i < |refs| ==> HasRow(rows, RefKey(refs[i]))
  }

  ghost predicate HasRow(rows: seq<Row>, key: string) {
    exists j :: 0 <= j < |rows| && RefKey(rows[j].ref) == key
  }

  ghost predicate Inv(d: Disk) {
    && (d.manifest.None? ==> d.frozen.None?)
    && (d.manifest.Some? && d.frozen.Some? ==> Covers(d.frozen.value, d.manifest.value.instances))
  }

  /** Rows frozen earlier stay where they are. */
  ghost predicate Extends(d: Disk, d': Disk) {
    && (d.frozen.Some? ==> d'.frozen.Some? && d.frozen.value <= d'.frozen.value)
    && (d.manifest.Some? ==>
          && d'.manifest.Some?
          && d'.manifest.value.settings == d.manifest.value.settings
          && forall i :: 0 <= i < |d.manifest.value.instances| ==>
               InKeys(d'.manifest.value.instances, RefKey(d.manifest.value.instances[i])))
  }

  /** The new references are those whose keys are not known. */
  lemma {:induction false} NewRefsMembers(requested: seq<Ref>, known: seq<Ref>, x: Ref)
    ensures x in NewRefs(requested, known) <==> x in requested && !InKeys(known, RefKey(x))
  {
    if requested != [] {
      NewRefsMembers(requested[1..], known, x);
      assert requested == [requested[0]] + requested[1..];
    }
  }

  /** Rows a start runs with cover the instances of its configuration, and extend the rows
      on disk. */
  lemma PlanIsCovered(d: Disk, r: Request, fetch: Fetch)
    requires Inv(d) && PlanOf(d, r, fetch).Proceeds?
    ensures var plan := PlanOf(d, r, fetch);
            && Covers(plan.rows, plan.config.instances)
            && CoversIds(plan.rows, plan.config.instances)
            && (d.frozen.Some? ==> d.frozen.value <= plan.rows)
  {
    var plan := PlanOf(d, r, fetch);
    var refs := plan.config.instances;
    forall i | 0 <= i < |refs|
      ensures HasRow(plan.rows, RefKey(refs[i]))
    {
      if d.manifest.Some? {
        var known := d.manifest.value.instances;
        NewRefsMembers(refs, known, refs[i]);
        if InKeys(known, RefKey(refs[i])) {
          var j :| 0 <= j < |known| && RefKey(known[j]) == RefKey(refs[i]);
          assert HasRow(d.frozen.value, RefKey(known[j]));
          var m :| 0 <= m < |d.frozen.value| && RefKey(d.frozen.value[m].ref) == RefKey(refs[i]);
          assert plan.rows[m] == d.frozen.value[m];
        } else {
          var added := NewRefs(refs, known);
          var m :| 0 <= m < |added| && added[m] == refs[i];
          assert plan.rows[|d.frozen.value| + m].ref == refs[i];
        }
      } else {
        assert plan.rows[i].ref == refs[i];
      }
    }
    CoveredIds(plan.rows, refs);
  }

  lemma PerformTwo(d: Disk, a: Write, b: Write)
    ensures PerformAll(d, []) == d
    ensures PerformAll(d, [a]) == Perform(d, a)
    ensures PerformAll(d, [a, b]) == Perform(Perform(d, a), b)
  {
    assert [a][1..] == [] && [a, b][1..] == [b] && [b][1..] == [];
    assert PerformAll(Perform(d, a), [b]) == Perform(Perform(d, a), b);
  }

  /** What a cut-off start leaves: the manifest of before or the planned one, the rows of
      before or the planned ones, and both planned ones if it was not cut off. */
  lemma DiskAfter(d: Disk, s: Start)
    ensures var plan := PlanOf(d, s.request, s.fetch);
            var d' := AfterStart(d, s);
            && (d'.manifest == d.manifest || (plan.Proceeds? && d'.manifest == Some(plan.config)))
            && (d'.frozen == d.frozen || (plan.Proceeds? && d'.frozen == Some(plan.rows)))
            && (plan.Proceeds? && |plan.writes| <= s.writes ==>
                  d'.frozen == Some(plan.rows) && (plan.writes != [] ==> d'.manifest == Some(plan.config)))
  {
    var plan := PlanOf(d, s.request, s.fetch);
    if plan.Proceeds? && plan.writes != [] {
      PerformTwo(d, plan.writes[0], plan.writes[1]);
      assert plan.writes == [plan.writes[0], plan.writes[1]];
      assert Cut(plan.writes, s.writes) == []
             || Cut(plan.writes, s.writes) == [plan.writes[0]]
             || Cut(plan.writes, s.writes) == plan.writes;
    }
  }

  /** Wherever a start is cut off, the store stays consistent and only grows. */
  lemma StartKeepsInv(d: Disk, s: Start)
    requires Inv(d)
    ensures Inv(AfterStart(d, s)) && Extends(d, AfterStart(d, s))
  {
    var plan := PlanOf(d, s.request, s.fetch);
    if plan.Proceeds? && plan.writes != [] {
      PlanIsCovered(d, s.request, s.fetch);
      PerformTwo(d, plan.writes[0], plan.writes[1]);
      assert plan.writes == [plan.writes[0], plan.writes[1]];
      assert Cut(plan.writes, s.writes) == []
             || Cut(plan.writes, s.writes) == [plan.writes[0]]
             || Cut(plan.writes, s.writes) == plan.writes;
      if d.manifest.Some? {
        forall i | 0 <= i < |d.manifest.value.instances|
          ensures HasRow(plan.rows, RefKey(d.manifest.value.instances[i]))
        {
          var key := RefKey(d.manifest.value.instances[i]);
          assert InKeys(plan.config.instances, key);
          var j :| 0 <= j < |plan.config.instances| && RefKey(plan.config.instances[j]) == key;
          assert HasRow(plan.rows, RefKey(plan.config.instances[j]));
        }
      }
    }
    SelfKeys(d);
  }

  lemma SelfKeys(d: Disk)
    ensures Extends(d, d)
  {
    if d.manifest.Some? {
      var refs := d.manifest.value.instances;
      assert forall i :: 0 <= i < |refs| ==> InKeys(refs, RefKey(refs[i]));
    }
  }

  lemma {:induction false} HistoryKeepsInv(d: Disk, history: seq<Start>)
    requires Inv(d)
    ensures Inv(After(d, history)) && Extends(d, After(d, history))
    decreases |history|
  {
    if history == [] {
      SelfKeys(d);
    } else {
      StartKeepsInv(d, history[0]);
      var next := AfterStart(d, history[0]);
      HistoryKeepsInv(next, history[1..]);
    }
  }

  lemma {:induction false} AfterConcat(d: Disk, first: seq<Start>, second: seq<Start>)
    ensures After(d, first + second) == After(After(d, first), second)
    decreases |first|
  {
    if first == [] {
      assert first + second == second;
    } else {
      assert (first + second)[0] == first[0] && (first + second)[1..] == first[1..] + second;
      AfterConcat(AfterStart(d, first[0]), first[1..], second);
    }
  }

  /** Crash consistency: after any history of starts and slate extensions, cut off after any
      of their writes, a further start refuses or runs with a frozen row for every instance
      of its configuration, by key and, where no field holds a bar, by id; the rows and
      instances of every earlier moment are kept, the rows as a prefix. */
  lemma CrashConsistent(earlier: seq<Start>, later: seq<Start>, r: Request, fetch: Fetch)
    ensures var d := After(EMPTY_DISK, earlier + later);
            var plan := PlanOf(d, r, fetch);
            && Extends(After(EMPTY_DISK, earlier), d)
            && (plan.Proceeds? ==>
                  && Covers(plan.rows, plan.config.instances)
                  && CoversIds(plan.rows, plan.config.instances)
                  && (d.frozen.Some? ==> d.frozen.value <= plan.rows))
  {
    HistoryKeepsInv(EMPTY_DISK, earlier);
    HistoryKeepsInv(After(EMPTY_DISK, earlier), later);
    AfterConcat(EMPTY_DISK, earlier, later);
    var d := After(EMPTY_DISK, earlier + later);
    if PlanOf(d, r, fetch).Proceeds? {
      PlanIsCovered(d, r, fetch);
    }
  }

  /** A first start that crashed between its two writes leaves a store that every later start
      refuses, whatever it asks for. */
  lemma {:induction false} TornStoreRefusesForever(d: Disk, history: seq<Start>, r: Request, fetch: Fetch)
    requires d.manifest.Some? && d.frozen.None?
    ensures After(d, history) == d && PlanOf(d, r, fetch).Refuses?
    decreases |history|
  {
    if history != [] {
      TornStoreRefusesForever(d, history[1..], r, fetch);
    }
  }

  // ---------------------------------------------------------------- from keys to instance ids

  predicate PlainRef(r: Ref) {
    '|' !in r.id && '|' !in r.dataset && '|' !in r.split
  }

  /** A run looks up the frozen row of an instance by its id alone. */
  ghost predicate HasId(rows: seq<Row>, id: string) {
    exists j :: 0 <= j < |rows| && rows[j].ref.id == id
  }

  /** No other reference with the same key has another id. */
  ghost predicate Unambiguous(r: Ref) {
    forall other: Ref :: RefKey(other) == RefKey(r) ==> other.id == r.id
  }

  lemma BarsOfKey(r: Ref, i: nat)
    requires i < |RefKey(r)|
    ensures i == |r.id| || i == |r.id| + 1 + |r.dataset| ==> RefKey(r)[i] == '|'
    ensures PlainRef(r) && RefKey(r)[i] == '|' ==> i == |r.id| || i == |r.id| + 1 + |r.dataset|
  {
    var k := RefKey(r);
    assert k == r.id + "|" + (r.dataset + "|" + r.split);
    if i < |r.id| {
      assert k[i] == r.id[i];
    } else if |r.id| < i < |r.id| + 1 + |r.dataset| {
      assert k[i] == r.dataset[i - |r.id| - 1];
    } else if i > |r.id| + 1 + |r.dataset| {
      assert k[i] == r.split[i - |r.id| - |r.dataset| - 2];
    }
  }

  /** A reference whose fields hold no bar shares its key with no other reference. */
  lemma RefKeyInjective(x: Ref, y: Ref)
    requires PlainRef(x) && RefKey(x) == RefKey(y)
    ensures x == y
  {
    var k := RefKey(x);
    var first, second := |y.id|, |y.id| + 1 + |y.dataset|;
    BarsOfKey(y, first);
    BarsOfKey(y, second);
    BarsOfKey(x, first);
    BarsOfKey(x, second);
    assert first == |x.id| && second == |x.id| + 1 + |x.dataset|;
    assert x.id == k[..first] == y.id;
    assert x.dataset == k[first + 1..second] == y.dataset;
    assert x.split == k[second + 1..] == y.split;
  }

  lemma TwinById(r: Ref, i: nat) returns (twin: Ref)
    requires i < |r.id| && r.id[i] == '|'
    ensures RefKey(twin) == RefKey(r) && twin.id != r.id
  {
    twin := Ref(r.id[..i], r.id[i + 1..] + "|" + r.dataset, r.split);
    assert r.id == r.id[..i] + "|" + r.id[i + 1..];
  }

  lemma TwinByDataset(r: Ref, i: nat) returns (twin: Ref)
    requires i < |r.dataset| && r.dataset[i] == '|'
    ensures RefKey(twin) == RefKey(r) && twin.id != r.id
  {
    twin := Ref(r.id + "|" + r.dataset[..i], r.dataset[i + 1..], r.split);
    assert r.dataset == r.dataset[..i] + "|" + r.dataset[i + 1..];
    assert |twin.id| > |r.id|;
  }

  lemma TwinBySplit(r: Ref, i: nat) returns (twin: Ref)
    requires i < |r.split| && r.split[i] == '|'
    ensures RefKey(twin) == RefKey(r) && twin.id != r.id
  {
    twin := Ref(r.id + "|" + r.dataset, r.split[..i], r.split[i + 1..]);
    assert r.split == r.split[..i] + "|" + r.split[i + 1..];
    assert |twin.id| > |r.id|;
  }

  /** A bar in a field makes another reference with the same key. */
  lemma Twin(r: Ref) returns (twin: Ref)
    requires !PlainRef(r)
    ensures RefKey(twin) == RefKey(r) && twin.id != r.id
  {
    if i :| 0 <= i < |r.id| && r.id[i] == '|' {
      twin := TwinById(r, i);
    } else if i :| 0 <= i < |r.dataset| && r.dataset[i] == '|' {
      twin := TwinByDataset(r, i);
    } else {
      var i :| 0 <= i < |r.split| && r.split[i] == '|';
      twin := TwinBySplit(r, i);
    }
  }

  /** Keys settle the id of a reference exactly if its fields hold no bar. */
  lemma PlainIsUnambiguous(r: Ref)
    ensures PlainRef(r) <==> Unambiguous(r)
  {
    if PlainRef(r) {
      forall other: Ref | RefKey(other) == RefKey(r)
        ensures other.id == r.id
      {
        RefKeyInjective(r, other);
      }
    } else {
      var twin := Twin(r);
      assert !Unambiguous(r);
    }
  }

  /** There is a row for the id of every reference whose fields hold no bar. */
  ghost predicate CoversIds(rows: seq<Row>, refs: seq<Ref>) {
    forall i :: 0 <= i < |refs| && PlainRef(refs[i]) ==> HasId(rows, refs[i].id)
  }

  lemma CoveredIds(rows: seq<Row>, refs: seq<Ref>)
    requires Covers(rows, refs)
    ensures CoversIds(rows, refs)
  {
    forall i | 0 <= i < |refs| && PlainRef(refs[i])
      ensures HasId(rows, refs[i].id)
    {
      CoveredById(rows, refs, i);
    }
  }

  lemma PlanHasRow(d: Disk, request: Request, fetch: Fetch, r: Ref)
    requires Inv(d) && PlanOf(d, request, fetch).Proceeds?
    requires r in PlanOf(d, request, fetch).config.instances && PlainRef(r)
    ensures HasId(PlanOf(d, request, fetch).rows, r.id)
  {
    PlanIsCovered(d, request, fetch);
  }

  lemma CoveredById(rows: seq<Row>, refs: seq<Ref>, i: nat)
    requires Covers(rows, refs) && i < |refs| && PlainRef(refs[i])
    ensures HasId(rows, refs[i].id)
  {
    assert HasRow(rows, RefKey(refs[i]));
    var j :| 0 <= j < |rows| && RefKey(rows[j].ref) == RefKey(refs[i]);
    RefKeyInjective(refs[i], rows[j].ref);
  }

  /** A start that proceeds after some history of these settings, but without a row for the
      id of `r`. */
  ghost predicate LosesRow(settings: Settings, history: seq<Start>, request: Request, fetch: Fetch, r: Ref) {
    && request.settings == settings
    && (forall i :: 0 <= i < |history| ==> history[i].request.settings == settings)
    && var plan := PlanOf(After(EMPTY_DISK, history), request, fetch);
       plan.Proceeds? && r in plan.config.instances && !HasId(plan.rows, r.id)
  }

  ghost predicate CanLoseRow(settings: Settings, r: Ref) {
    exists history, request, fetch :: LosesRow(settings, history, request, fetch, r)
  }

  function Always(r: Ref): Option<string> {
    Some("")
  }

  lemma FreezeOne(ref: Ref)
    ensures Freeze([ref], Always) == Some([Row(ref, "")])
  {
    assert [ref][..0] == [];
    assert Freeze([], Always) == Some([]);
    var none: seq<Row> := [];
    assert none + [Row(ref, "")] == [Row(ref, "")];
    assert Freeze([ref], Always) == Some(none + [Row(ref, "")]);
  }

  lemma FirstPlan(ref: Ref, settings: Settings)
    ensures var m, rows := Manifest([ref], settings, None, None), [Row(ref, "")];
            PlanOf(EMPTY_DISK, Request(true, [ref], settings, None, None), Always)
            == Proceeds([WriteManifest(m), WriteFrozen(rows)], m, rows)
  {
    var slate := Request(true, [ref], settings, None, None);
    FreezeOne(ref);
    assert ConfigFor(slate, EMPTY_DISK.manifest) == Manifest([ref], settings, None, None);
  }

  /** The store after a first start with one reference. */
  lemma FirstStart(ref: Ref, settings: Settings)
    ensures After(EMPTY_DISK, [Start(Request(true, [ref], settings, None, None), Always, 2)])
            == Disk(Some(Manifest([ref], settings, None, None)), Some([Row(ref, "")]))
  {
    var start := Start(Request(true, [ref], settings, None, None), Always, 2);
    var writes := [WriteManifest(Manifest([ref], settings, None, None)), WriteFrozen([Row(ref, "")])];
    FirstPlan(ref, settings);
    PerformTwo(EMPTY_DISK, writes[0], writes[1]);
    assert Cut(writes, 2) == writes;
    assert [start][1..] == [];
    assert After(AfterStart(EMPTY_DISK, start), []) == AfterStart(EMPTY_DISK, start);
  }

  /** The twin's key stands for `r` as well. */
  lemma NothingNew(r: Ref, twin: Ref)
    requires RefKey(twin) == RefKey(r)
    ensures NewRefs([twin, r], [twin]) == [] && InKeys([twin, r], RefKey(twin))
  {
    assert RefKey([twin][0]) == RefKey(twin) == RefKey([twin, r][0]);
    assert InKeys([twin], RefKey(twin));
    assert [twin, r][1..] == [r] && [r][1..] == [];
    assert NewRefs([r], [twin]) == [] + NewRefs([], [twin]);
    assert NewRefs([twin, r], [twin]) == [] + NewRefs([r], [twin]);
  }

  lemma ExtensionProceeds(r: Ref, twin: Ref, settings: Settings, rows: seq<Row>)
    requires RefKey(twin) == RefKey(r)
    ensures PlanOf(Disk(Some(Manifest([twin], settings, None, None)), Some(rows)),
                   Request(true, [twin, r], settings, None, None), Always)
            == Proceeds([], Manifest([twin, r], settings, None, None), rows)
  {
    NothingNew(r, twin);
    var frozen, requested := Manifest([twin], settings, None, None), Manifest([twin, r], settings, None, None);
    assert Compatible(frozen, requested);
  }

  /** A slate with a twin of `r`, extended by `r` itself: the extension finds nothing to fetch. */
  lemma TwinTakesThePlace(r: Ref, twin: Ref, settings: Settings)
    requires RefKey(twin) == RefKey(r) && twin.id != r.id
    ensures CanLoseRow(settings, r)
  {
    var extended := Request(true, [twin, r], settings, None, None);
    var rows := [Row(twin, "")];
    FirstStart(twin, settings);
    ExtensionProceeds(r, twin, settings, rows);
    assert r == [twin, r][1];
    assert !HasId(rows, r.id);
    assert LosesRow(settings, [Start(Request(true, [twin], settings, None, None), Always, 2)], extended, Always, r);
  }

  /** Whatever the settings: over all histories a start that proceeds has a frozen row for the
      id of `r` in its slate exactly if no field of `r` holds a bar. */
  lemma RowLostIffBar(settings: Settings, r: Ref)
    ensures CanLoseRow(settings, r) <==> !PlainRef(r)
  {
    if !PlainRef(r) {
      var twin := Twin(r);
      TwinTakesThePlace(r, twin, settings);
    } else if history, request, fetch :| LosesRow(settings, history, request, fetch, r) {
      HistoryKeepsInv(EMPTY_DISK, history);
      PlanHasRow(After(EMPTY_DISK, history), request, fetch, r);
    }
  }

  // ---------------------------------------------------------------- the store as an object

  datatype Prepared = Refused | Crashed | Ready(config: Manifest, rows: seq<Row>)

  class Store {
    var manifest: Option<Manifest>
    var frozen: Option<seq<Row>>

    ghost function Value(): Disk
      reads this
    {
      Disk(manifest, frozen)
    }

    constructor ()
      ensures Value() == EMPTY_DISK
    {
      manifest, frozen := None, None;
    }

    /** Fetches row after row; the first failure ends it. */
    method ResolveFrozen(refs: seq<Ref>, fetch: Fetch) returns (rows: Option<seq<Row>>)
      ensures rows == Freeze(refs, fetch)
    {
      var out: seq<Row> := [];
      for i := 0 to |refs|
        invariant Freeze(refs[..i], fetch) == Some(out)
      {
        var row := fetch(refs[i]);
        assert refs[..i + 1][..i] == refs[..i];
        if row.None? {
          FreezeFails(refs, fetch, i + 1);
          return None;
        }
        out := out + [Row(refs[i], row.value)];
      }
      assert refs[..|refs|] == refs;
      rows := Some(out);
    }

    /** `prepareDurableRun` in a process that dies before write number `writes`. */
    method PrepareDurableRun(r: Request, fetch: Fetch, writes: nat) returns (prepared: Prepared)
      modifies this
      ensures Value() == AfterStart(old(Value()), Start(r, fetch, writes))
      ensures var plan := PlanOf(old(Value()), r, fetch);
              && (prepared.Refused? <==> plan.Refuses?)
              && (prepared.Crashed? <==> plan.Proceeds? && writes < |plan.writes|)
              && (prepared.Ready? ==> prepared.config == plan.config && prepared.rows == plan.rows)
    {
      if manifest.Some? {
        var existing := manifest.value;
        var config := ConfigFor(r, manifest);
        if !Compatible(existing, config) || frozen.None? {
          return Refused;
        }
        var newRefs := NewRefs(config.instances, existing.instances);
        if newRefs == [] {
          return Ready(config, frozen.value);
        }
        var newFrozen := ResolveFrozen(newRefs, fetch);
        if newFrozen.None? {
          return Refused;
        }
        var merged := frozen.value + newFrozen.value;
        PerformTwo(Value(), WriteFrozen(merged), WriteManifest(config));
        if writes == 0 {
          return Crashed;
        }
        frozen := Some(merged);
        if writes == 1 {
          assert Cut([WriteFrozen(merged), WriteManifest(config)], 1) == [WriteFrozen(merged)];
          return Crashed;
        }
        manifest := Some(config);
        return Ready(config, merged);
      }
      var config := ConfigFor(r, None);
      var rows := ResolveFrozen(config.instances, fetch);
      if rows.None? {
        return Refused;
      }
      PerformTwo(Value(), WriteManifest(config), WriteFrozen(rows.value));
      if writes == 0 {
        return Crashed;
      }
      manifest := Some(config);
      if writes == 1 {
        assert Cut([WriteManifest(config), WriteFrozen(rows.value)], 1) == [WriteManifest(config)];
        return Crashed;
      }
      frozen := Some(rows.value);
      return Ready(config, rows.value);
    }
  }

  lemma {:induction false} FreezeFails(refs: seq<Ref>, fetch: Fetch, n: nat)
    requires 0 < n <= |refs| && Freeze(refs[..n], fetch).None?
    ensures Freeze(refs, fetch).None?
    decreases |refs| - n
  {
    if n < |refs| {
      assert refs[..n + 1][..n] == refs[..n];
      FreezeFails(refs, fetch, n + 1);
    } else {
      assert refs[..n] == refs;
    }
  }
}
