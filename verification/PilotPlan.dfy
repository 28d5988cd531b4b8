/** What a start of the pilot does, told from the request and the disk: a resume, an extension,
    a first start. */
module PilotPlan {
  import opened Text
  import opened PilotStore
  import Content = PilotContent

  /** The settings, and the optional source and hash, of two configurations agree. */
  predicate SameTerms(m: Manifest, r: Request) {
    && r.settings == m.settings
    && (m.taskSource.Some? ==> r.taskSource == m.taskSource)
    && (m.slateHash.Some? ==> r.slateHash == m.slateHash)
  }

  lemma OwnKeys(refs: seq<Ref>)
    ensures forall i :: 0 <= i < |refs| ==> InKeys(refs, RefKey(refs[i]))
  {
  }

  /** A resume that names no instances: whatever slate, source and hash the request holds, it
      proceeds exactly if the rows are there and the settings are the same, writes nothing, and
      runs the manifest's own instances on the rows on disk. */
  lemma ResumeIsFaithful(d: Disk, r: Request, fetch: Fetch)
    requires d.manifest.Some? && !r.explicit
    ensures var plan := PlanOf(d, r, fetch);
            && (plan.Proceeds? <==> d.frozen.Some? && r.settings == d.manifest.value.settings)
            && (plan.Proceeds? ==>
                  && plan.writes == []
                  && plan.config.instances == d.manifest.value.instances
                  && plan.config.settings == d.manifest.value.settings
                  && plan.config.taskSource == d.manifest.value.taskSource
                  && plan.config.slateHash == d.manifest.value.slateHash
                  && plan.rows == d.frozen.value)
  {
    var refs := d.manifest.value.instances;
    OwnKeys(refs);
    Content.NothingNewAmong(refs, refs);
  }

  /** The references of a slate that the manifest does not have, in order. */
  ghost predicate AreNew(requested: seq<Ref>, known: seq<Ref>, added: seq<Ref>) {
    && (forall x :: x in added <==> x in requested && !InKeys(known, RefKey(x)))
    && exists places: seq<nat> :: PlacedAt(requested, added, places)
  }

  ghost predicate PlacedAt(all: seq<Ref>, part: seq<Ref>, places: seq<nat>) {
    && |places| == |part|
    && (forall i :: 0 <= i < |places| ==> places[i] < |all| && all[places[i]] == part[i])
    && (forall i, j :: 0 <= i < j < |places| ==> places[i] < places[j])
  }

  function Later(places: seq<nat>): seq<nat> {
    seq(|places|, i requires 0 <= i < |places| => places[i] + 1)
  }

  lemma PlacedLater(all: seq<Ref>, part: seq<Ref>, places: seq<nat>)
    requires all != [] && PlacedAt(all[1..], part, places)
    ensures PlacedAt(all, part, Later(places))
  {
    assert forall i :: 0 <= i < |places| ==> all[1..][places[i]] == all[places[i] + 1];
  }

  lemma PlacedFirst(all: seq<Ref>, part: seq<Ref>, places: seq<nat>)
    requires all != [] && PlacedAt(all, part, places) && forall i :: 0 <= i < |places| ==> places[i] > 0
    ensures PlacedAt(all, [all[0]] + part, [0] + places)
  {
  }

  lemma {:induction false} NewRefsPlaces(requested: seq<Ref>, known: seq<Ref>) returns (places: seq<nat>)
    ensures PlacedAt(requested, NewRefs(requested, known), places)
  {
    places := [];
    if requested != [] {
      var tail := NewRefs(requested[1..], known);
      places := NewRefsPlaces(requested[1..], known);
      PlacedLater(requested, tail, places);
      places := Later(places);
      if InKeys(known, RefKey(requested[0])) {
        assert NewRefs(requested, known) == tail;
      } else {
        PlacedFirst(requested, tail, places);
        places := [0] + places;
      }
    }
  }

  lemma NewRefsAreNew(requested: seq<Ref>, known: seq<Ref>)
    ensures AreNew(requested, known, NewRefs(requested, known))
  {
    var places := NewRefsPlaces(requested, known);
    forall x
      ensures x in NewRefs(requested, known) <==> x in requested && !InKeys(known, RefKey(x))
    {
      NewRefsMembers(requested, known, x);
    }
  }

  /** Rows for these references, in order, with what was fetched for each. */
  predicate Fetched(refs: seq<Ref>, fetch: Fetch, rows: seq<Row>) {
    |rows| == |refs|
    && forall i :: 0 <= i < |refs| ==> rows[i].ref == refs[i] && fetch(refs[i]) == Some(rows[i].content)
  }

  predicate Fetchable(refs: seq<Ref>, fetch: Fetch) {
    forall i :: 0 <= i < |refs| ==> fetch(refs[i]).Some?
  }

  lemma {:induction false} FreezeFetches(refs: seq<Ref>, fetch: Fetch)
    ensures Freeze(refs, fetch).Some? <==> Fetchable(refs, fetch)
    ensures Freeze(refs, fetch).Some? ==> Fetched(refs, fetch, Freeze(refs, fetch).value)
  {
    if refs != [] {
      var n := |refs| - 1;
      FreezeFetches(refs[..n], fetch);
      assert forall i :: 0 <= i < n ==> refs[..n][i] == refs[i];
    }
  }

  /** A start with an explicit slate on an existing store: it proceeds exactly if no instance
      of the manifest is missing, the terms agree, the rows are there, and every new reference
      can be fetched.  Rows for exactly the new references are added behind the old ones, and
      written before the manifest; nothing is written if there are none. */
  lemma ExtensionIsFaithful(d: Disk, r: Request, fetch: Fetch, added: seq<Ref>)
    requires d.manifest.Some? && r.explicit && added == NewRefs(r.instances, d.manifest.value.instances)
    ensures AreNew(r.instances, d.manifest.value.instances, added)
    ensures var plan, m := PlanOf(d, r, fetch), d.manifest.value;
            && (plan.Proceeds? <==>
                  && d.frozen.Some? && SameTerms(m, r) && Fetchable(added, fetch)
                  && forall i :: 0 <= i < |m.instances| ==> InKeys(r.instances, RefKey(m.instances[i])))
            && (plan.Proceeds? ==>
                  && plan.config == Manifest(r.instances, r.settings, r.taskSource, r.slateHash)
                  && d.frozen.value <= plan.rows
                  && Fetched(added, fetch, plan.rows[|d.frozen.value|..])
                  && plan.writes == if added == [] then [] else [WriteFrozen(plan.rows), WriteManifest(plan.config)])
  {
    NewRefsAreNew(r.instances, d.manifest.value.instances);
    FreezeFetches(added, fetch);
  }

  /** A start on an empty store: it proceeds exactly if every reference can be fetched, takes
      everything from the request, and writes the manifest before the rows. */
  lemma FirstStartIsFaithful(d: Disk, r: Request, fetch: Fetch)
    requires d.manifest.None?
    ensures var plan := PlanOf(d, r, fetch);
            && (plan.Proceeds? <==> Fetchable(r.instances, fetch))
            && (plan.Proceeds? ==>
                  && plan.config == Manifest(r.instances, r.settings, r.taskSource, r.slateHash)
                  && Fetched(r.instances, fetch, plan.rows)
                  && plan.writes == [WriteManifest(plan.config), WriteFrozen(plan.rows)])
  {
    FreezeFetches(r.instances, fetch);
  }
}
