/** The frozen content a run works on: once an instance is part of a run, every later run uses
    the same row for it. */
module PilotContent {
  import opened Text
  import opened PilotStore

  /** The row a run uses for an instance id: the last one, as in a map built from the rows. */
  function LastRow(rows: seq<Row>, id: string): Option<Row> {
    if rows == [] then None
    else if rows[|rows| - 1].ref.id == id then Some(rows[|rows| - 1])
    else LastRow(rows[..|rows| - 1], id)
  }

  function RowOnDisk(d: Disk, id: string): Option<Row> {
    if d.frozen.None? then None else LastRow(d.frozen.value, id)
  }

  ghost predicate HasInstance(refs: seq<Ref>, id: string) {
    exists i :: 0 <= i < |refs| && refs[i].id == id
  }

  /** No id twice, no bar in a field. */
  ghost predicate GoodRefs(refs: seq<Ref>) {
    && (forall i, j :: 0 <= i < j < |refs| ==> refs[i].id != refs[j].id)
    && (forall i :: 0 <= i < |refs| ==> PlainRef(refs[i]))
  }

  ghost predicate GoodRequest(r: Request) {
    GoodRefs(r.instances)
  }

  ghost predicate GoodHistory(history: seq<Start>) {
    forall i :: 0 <= i < |history| ==> GoodRequest(history[i].request)
  }

  ghost predicate Good(d: Disk) {
    Inv(d) && (d.manifest.Some? ==> GoodRefs(d.manifest.value.instances))
  }

  // ---------------------------------------------------------------- last rows

  lemma {:induction false} LastRowSkips(a: seq<Row>, b: seq<Row>, id: string)
    requires forall i :: 0 <= i < |b| ==> b[i].ref.id != id
    ensures LastRow(a + b, id) == LastRow(a, id)
    decreases |b|
  {
    if b == [] {
      assert a + b == a;
    } else {
      assert (a + b)[..|a + b| - 1] == a + b[..|b| - 1];
      LastRowSkips(a, b[..|b| - 1], id);
    }
  }

  lemma {:induction false} LastRowExists(rows: seq<Row>, id: string)
    ensures LastRow(rows, id).Some? <==> HasId(rows, id)
    ensures LastRow(rows, id).Some? ==> LastRow(rows, id).value.ref.id == id
  {
    if rows != [] {
      var n := |rows| - 1;
      LastRowExists(rows[..n], id);
      assert forall j :: 0 <= j < n ==> rows[..n][j] == rows[j];
    }
  }

  // ---------------------------------------------------------------- what a start adds

  lemma PlainKeyIsIn(refs: seq<Ref>, x: Ref)
    requires PlainRef(x) && InKeys(refs, RefKey(x))
    ensures x in refs
  {
    var i :| 0 <= i < |refs| && RefKey(refs[i]) == RefKey(x);
    RefKeyInjective(x, refs[i]);
  }

  /** A compatible extension adds no reference with an id that the manifest already has. */
  lemma NewIdsAreNew(frozen: Manifest, config: Manifest, id: string)
    requires GoodRefs(frozen.instances) && GoodRefs(config.instances) && Compatible(frozen, config)
    requires HasInstance(frozen.instances, id)
    ensures forall x :: x in NewRefs(config.instances, frozen.instances) ==> x.id != id
    ensures HasInstance(config.instances, id)
  {
    var k :| 0 <= k < |frozen.instances| && frozen.instances[k].id == id;
    var known := frozen.instances[k];
    PlainKeyIsIn(config.instances, known);
    forall x | x in NewRefs(config.instances, frozen.instances)
      ensures x.id != id
    {
      NewRefsMembers(config.instances, frozen.instances, x);
      assert RefKey(frozen.instances[k]) == RefKey(known);
      assert x != known;
    }
  }

  /** A start that proceeds uses, for an instance of the manifest, the row on disk. */
  lemma PlanKeepsRow(d: Disk, r: Request, fetch: Fetch, id: string)
    requires Good(d) && GoodRequest(r) && PlanOf(d, r, fetch).Proceeds?
    requires d.manifest.Some? && HasInstance(d.manifest.value.instances, id)
    ensures LastRow(PlanOf(d, r, fetch).rows, id) == RowOnDisk(d, id)
    ensures HasInstance(PlanOf(d, r, fetch).config.instances, id)
  {
    var plan := PlanOf(d, r, fetch);
    NewIdsAreNew(d.manifest.value, plan.config, id);
    var newRefs := NewRefs(plan.config.instances, d.manifest.value.instances);
    if newRefs != [] {
      var added := Freeze(newRefs, fetch).value;
      forall i | 0 <= i < |added|
        ensures added[i].ref.id != id
      {
        assert added[i].ref == newRefs[i];
      }
      LastRowSkips(d.frozen.value, added, id);
    }
  }

  lemma StartKeepsGood(d: Disk, s: Start)
    requires Good(d) && GoodRequest(s.request)
    ensures Good(AfterStart(d, s))
  {
    StartKeepsInv(d, s);
    DiskAfter(d, s);
  }

  lemma StartKeepsRow(d: Disk, s: Start, id: string)
    requires Good(d) && GoodRequest(s.request)
    requires d.manifest.Some? && HasInstance(d.manifest.value.instances, id)
    ensures var d' := AfterStart(d, s);
            d'.manifest.Some? && HasInstance(d'.manifest.value.instances, id) && RowOnDisk(d', id) == RowOnDisk(d, id)
  {
    DiskAfter(d, s);
    if PlanOf(d, s.request, s.fetch).Proceeds? {
      PlanKeepsRow(d, s.request, s.fetch, id);
    }
  }

  lemma {:induction false} HistoryKeepsGood(d: Disk, history: seq<Start>)
    requires Good(d) && GoodHistory(history)
    ensures Good(After(d, history))
    decreases |history|
  {
    if history != [] {
      StartKeepsGood(d, history[0]);
      HistoryKeepsGood(AfterStart(d, history[0]), history[1..]);
    }
  }

  lemma {:induction false} HistoryKeepsRow(d: Disk, history: seq<Start>, id: string)
    requires Good(d) && GoodHistory(history)
    requires d.manifest.Some? && HasInstance(d.manifest.value.instances, id)
    ensures var d' := After(d, history);
            d'.manifest.Some? && HasInstance(d'.manifest.value.instances, id) && RowOnDisk(d', id) == RowOnDisk(d, id)
    decreases |history|
  {
    if history != [] {
      StartKeepsGood(d, history[0]);
      StartKeepsRow(d, history[0], id);
      HistoryKeepsRow(AfterStart(d, history[0]), history[1..], id);
    }
  }

  // ---------------------------------------------------------------- the same row in every run

  /** The start is not cut off, so its run begins. */
  predicate Completes(d: Disk, s: Start) {
    PlanOf(d, s.request, s.fetch).Proceeds? && |PlanOf(d, s.request, s.fetch).writes| <= s.writes
  }

  lemma CompletedIsInManifest(d: Disk, s: Start, ref: Ref)
    requires Good(d) && GoodRequest(s.request) && Completes(d, s)
    requires ref in PlanOf(d, s.request, s.fetch).config.instances
    ensures var d' := AfterStart(d, s);
            && d'.manifest.Some? && HasInstance(d'.manifest.value.instances, ref.id)
            && d'.frozen == Some(PlanOf(d, s.request, s.fetch).rows)
  {
    var plan := PlanOf(d, s.request, s.fetch);
    DiskAfter(d, s);
    var k :| 0 <= k < |plan.config.instances| && plan.config.instances[k] == ref;
    if plan.writes == [] {
      NewRefsMembers(plan.config.instances, d.manifest.value.instances, ref);
      PlainKeyIsIn(d.manifest.value.instances, ref);
    }
  }

  /** Once a run has used a row for an instance, every later run uses the same row for it,
      over any history of starts, extensions and torn writes in between; given bar-free
      references and no id twice in a slate. */
  lemma RunsUseTheSameRow(earlier: seq<Start>, first: Start, between: seq<Start>, again: Start, ref: Ref)
    requires GoodHistory(earlier) && GoodHistory(between) && GoodRequest(first.request) && GoodRequest(again.request)
    requires Completes(After(EMPTY_DISK, earlier), first)
    requires ref in PlanOf(After(EMPTY_DISK, earlier), first.request, first.fetch).config.instances
    requires PlanOf(After(AfterStart(After(EMPTY_DISK, earlier), first), between), again.request, again.fetch).Proceeds?
    ensures var d := After(EMPTY_DISK, earlier);
            var used := LastRow(PlanOf(d, first.request, first.fetch).rows, ref.id);
            && used.Some?
            && LastRow(PlanOf(After(AfterStart(d, first), between), again.request, again.fetch).rows, ref.id) == used
  {
    var d := After(EMPTY_DISK, earlier);
    HistoryKeepsGood(EMPTY_DISK, earlier);
    PlanHasRow(d, first.request, first.fetch, ref);
    LastRowExists(PlanOf(d, first.request, first.fetch).rows, ref.id);
    CompletedIsInManifest(d, first, ref);
    StartKeepsGood(d, first);
    var d1 := AfterStart(d, first);
    HistoryKeepsGood(d1, between);
    HistoryKeepsRow(d1, between, ref.id);
    PlanKeepsRow(After(d1, between), again.request, again.fetch, ref.id);
  }

  // ---------------------------------------------------------------- which rows on disk are final

  /** Some start that proceeds with `ref` in its slate uses another row than the one on disk. */
  ghost predicate Replaces(d: Disk, r: Request, fetch: Fetch, ref: Ref) {
    && GoodRequest(r)
    && PlanOf(d, r, fetch).Proceeds?
    && ref in PlanOf(d, r, fetch).config.instances
    && LastRow(PlanOf(d, r, fetch).rows, ref.id) != RowOnDisk(d, ref.id)
  }

  ghost predicate CanReplace(d: Disk, ref: Ref) {
    exists r, fetch :: Replaces(d, r, fetch, ref)
  }

  lemma {:induction false} NothingNewAmong(refs: seq<Ref>, frozen: seq<Ref>)
    requires forall i :: 0 <= i < |refs| ==> InKeys(frozen, RefKey(refs[i]))
    ensures NewRefs(refs, frozen) == []
  {
    if refs != [] {
      assert forall i :: 0 <= i < |refs[1..]| ==> refs[1..][i] == refs[i + 1];
      NothingNewAmong(refs[1..], frozen);
    }
  }

  lemma {:induction false} NewRefsConcat(a: seq<Ref>, b: seq<Ref>, frozen: seq<Ref>)
    ensures NewRefs(a + b, frozen) == NewRefs(a, frozen) + NewRefs(b, frozen)
  {
    if a == [] {
      assert a + b == b;
    } else {
      assert (a + b)[0] == a[0] && (a + b)[1..] == a[1..] + b;
      NewRefsConcat(a[1..], b, frozen);
    }
  }

  function Always(content: string): Fetch {
    _ => Some(content)
  }

  lemma FreezeOneAs(ref: Ref, content: string)
    ensures Freeze([ref], Always(content)) == Some([Row(ref, content)])
  {
    var none: seq<Row> := [];
    assert [ref][..0] == [];
    assert Freeze([], Always(content)) == Some(none);
    assert none + [Row(ref, content)] == [Row(ref, content)];
    assert Freeze([ref], Always(content)) == Some(none + [Row(ref, content)]);
  }

  lemma OnlyNew(known: seq<Ref>, ref: Ref)
    requires !InKeys(known, RefKey(ref))
    ensures NewRefs(known + [ref], known) == [ref]
  {
    forall i | 0 <= i < |known|
      ensures InKeys(known, RefKey(known[i]))
    {
    }
    NothingNewAmong(known, known);
    NewRefsConcat(known, [ref], known);
    assert [ref][1..] == [];
    assert NewRefs([ref], known) == [ref] + NewRefs([], known);
  }

  function Extension(m: Manifest, ref: Ref): Request {
    Request(true, m.instances + [ref], m.settings, m.taskSource, m.slateHash)
  }

  lemma ExtensionIsCompatible(m: Manifest, ref: Ref)
    ensures Compatible(m, ConfigFor(Extension(m, ref), Some(m)))
  {
    var refs := m.instances + [ref];
    forall i | 0 <= i < |m.instances|
      ensures InKeys(refs, RefKey(m.instances[i]))
    {
      assert refs[i] == m.instances[i];
    }
  }

  lemma ExtensionRefetches(d: Disk, ref: Ref, content: string)
    requires Good(d) && d.manifest.Some? && d.frozen.Some? && PlainRef(ref)
    requires !HasInstance(d.manifest.value.instances, ref.id)
    ensures GoodRequest(Extension(d.manifest.value, ref))
    ensures var plan := PlanOf(d, Extension(d.manifest.value, ref), Always(content));
            plan.Proceeds? && plan.config.instances == d.manifest.value.instances + [ref]
            && plan.rows == d.frozen.value + [Row(ref, content)]
  {
    var known := d.manifest.value.instances;
    if InKeys(known, RefKey(ref)) {
      PlainKeyIsIn(known, ref);
      assert false;
    }
    ExtensionIsCompatible(d.manifest.value, ref);
    OnlyNew(known, ref);
    FreezeOneAs(ref, content);
  }

  /** For a bar-free reference and a store that starts accept: the row on disk is final exactly
      if the manifest has the instance.  A row that a torn extension left is fetched anew, and
      the new one is used. */
  lemma RowIsFinalIffInManifest(d: Disk, ref: Ref)
    requires Good(d) && d.manifest.Some? && d.frozen.Some? && PlainRef(ref)
    ensures CanReplace(d, ref) <==> !HasInstance(d.manifest.value.instances, ref.id)
  {
    if !HasInstance(d.manifest.value.instances, ref.id) {
      var before := RowOnDisk(d, ref.id);
      var content := if before.Some? && before.value.content == "" then "x" else "";
      ExtensionRefetches(d, ref, content);
      var rows := d.frozen.value + [Row(ref, content)];
      assert rows[|rows| - 1] == Row(ref, content);
      var refs := d.manifest.value.instances + [ref];
      assert refs[|refs| - 1] == ref;
      assert Replaces(d, Extension(d.manifest.value, ref), Always(content), ref);
    } else if r, fetch :| Replaces(d, r, fetch, ref) {
      PlanKeepsRow(d, r, fetch, ref.id);
    }
  }
}
