/** The newest-first walk over verdict pages that stops as soon as it has enough rows whose
    evidence can be fetched. */
module VerdictSearch {
  import opened Text

  datatype Row = Row(requestId: string, chainId: int, instanceId: string, passed: bool, verdict: string,
      manifestCid: string)

  datatype Polarity = Pass | Fail

  /** `polarityOf`: only rows where test result and verdict agree have one. */
  function PolarityOf(r: Row): Option<Polarity> {
    if r.passed && r.verdict == "PASS" then Some(Pass)
    else if !r.passed && r.verdict == "FAIL" then Some(Fail)
    else None
  }

  datatype AttemptRef = AttemptRef(requestId: string, chainId: int, instanceId: string, polarity: Polarity,
      verdictManifestCid: string)

  function ToAttemptRef(r: Row, p: Polarity): AttemptRef {
    AttemptRef(r.requestId, r.chainId, r.instanceId, p, r.manifestCid)
  }

  /** The deduplication key; its string form separates the same three parts by colons. */
  datatype RowKey = RowKey(chainId: int, requestId: string, polarity: Polarity)

  /** Asked only of rows that have a polarity. */
  function KeyOf(r: Row): RowKey {
    RowKey(r.chainId, Lower(r.requestId), if PolarityOf(r) == Some(Fail) then Fail else Pass)
  }

  function RefOf(r: Row): AttemptRef {
    ToAttemptRef(r, if PolarityOf(r) == Some(Fail) then Fail else Pass)
  }

  /** Held-out instances, and whether the evidence of a row can be fetched. */
  datatype Filter = Filter(heldOut: set<string>, evidence: AttemptRef -> bool)

  datatype Page = Page(items: seq<Row>, hasNext: bool, endCursor: Option<string>) | PageError

  /** The indexer: what it answers to the n-th request, made with a cursor. */
  type Indexer = (nat, Option<string>) -> Page

  const MAX_PAGES: nat := 50

  // ---------------------------------------------------------------- what the search means

  predicate IsEligible(f: Filter, r: Row) {
    PolarityOf(r).Some? && r.manifestCid != "" && r.instanceId != "" && r.instanceId !in f.heldOut
  }

  function EligibleRows(f: Filter, rows: seq<Row>): seq<Row> {
    if rows == [] then []
    else
      var n := |rows| - 1;
      EligibleRows(f, rows[..n]) + if IsEligible(f, rows[n]) then [rows[n]] else []
  }

  function Keys(rows: seq<Row>): set<RowKey> {
    set i | 0 <= i < |rows| :: KeyOf(rows[i])
  }

  /** Rows whose key did not occur before. */
  function FirstOccurrences(rows: seq<Row>): seq<Row> {
    if rows == [] then []
    else
      var n := |rows| - 1;
      FirstOccurrences(rows[..n]) + if KeyOf(rows[n]) in Keys(rows[..n]) then [] else [rows[n]]
  }

  function Evidenced(f: Filter, rows: seq<Row>): seq<AttemptRef> {
    if rows == [] then []
    else
      var n := |rows| - 1;
      Evidenced(f, rows[..n]) + if f.evidence(RefOf(rows[n])) then [RefOf(rows[n])] else []
  }

  /** All hits in a stream of rows: eligible, first of their key, with evidence. */
  function Hits(f: Filter, rows: seq<Row>): seq<AttemptRef> {
    Evidenced(f, FirstOccurrences(EligibleRows(f, rows)))
  }

  /** Everything the indexer has, from request n on: rows, and whether a request fails. */
  datatype Stream = Stream(rows: seq<Row>, failed: bool)

  function Walk(indexer: Indexer, n: nat, cursor: Option<string>): Stream
    decreases MAX_PAGES - n
  {
    if n >= MAX_PAGES then Stream([], false)
    else
      match indexer(n, cursor)
      case PageError => Stream([], true)
      case Page(items, hasNext, endCursor) =>
        if !hasNext || endCursor.None? || endCursor.value == "" then Stream(items, false)
        else
          var rest := Walk(indexer, n + 1, endCursor);
          Stream(items + rest.rows, rest.failed)
  }

  datatype Answer = Found(refs: seq<AttemptRef>) | NoneFound | IndexerFailed

  predicate NoRoom(limit: Option<int>) {
    limit.Some? && limit.value <= 0
  }

  /** The first `limit` hits of the whole walk; the walk's failure matters only if there are
      not enough hits before it. */
  function Search(f: Filter, indexer: Indexer, limit: Option<int>): Answer {
    var all := Walk(indexer, 0, None);
    var hits := Hits(f, all.rows);
    if NoRoom(limit) then NoneFound
    else if limit.Some? && |hits| >= limit.value then Found(hits[..limit.value])
    else if all.failed then IndexerFailed
    else if hits == [] then NoneFound
    else Found(hits)
  }

  // ---------------------------------------------------------------- consuming rows one by one

  /** What one more row adds to the hits. */
  function Gain(f: Filter, rows: seq<Row>, r: Row): seq<AttemptRef> {
    if IsEligible(f, r) && KeyOf(r) !in Keys(EligibleRows(f, rows)) && f.evidence(RefOf(r)) then [RefOf(r)] else []
  }

  lemma HitsAppend(f: Filter, rows: seq<Row>, r: Row)
    ensures Hits(f, rows + [r]) == Hits(f, rows) + Gain(f, rows, r)
    ensures EligibleRows(f, rows + [r]) == EligibleRows(f, rows) + if IsEligible(f, r) then [r] else []
    ensures Keys(EligibleRows(f, rows + [r])) == Keys(EligibleRows(f, rows)) + if IsEligible(f, r) then {KeyOf(r)}
        else {}
  {
    var before := EligibleRows(f, rows);
    if IsEligible(f, r) {
      var firsts := FirstOccurrences(before);
      KeysAppend(before, r);
      assert firsts + [] == firsts;
    } else {
      assert before + [] == before;
    }
  }

  lemma KeysAppend(rows: seq<Row>, r: Row)
    ensures Keys(rows + [r]) == Keys(rows) + {KeyOf(r)}
  {
    var all := rows + [r];
    assert forall k :: k in Keys(rows) ==> k in Keys(all) by {
      forall k | k in Keys(rows)
        ensures k in Keys(all)
      {
        var i :| 0 <= i < |rows| && KeyOf(rows[i]) == k;
        assert all[i] == rows[i];
      }
    }
    assert all[|rows|] == r;
  }

  lemma {:induction false} HitsPrefix(f: Filter, rows: seq<Row>, more: seq<Row>)
    ensures Hits(f, rows) <= Hits(f, rows + more)
    decreases |more|
  {
    if more == [] {
      assert rows + more == rows;
    } else {
      var n := |more| - 1;
      HitsPrefix(f, rows, more[..n]);
      HitsAppend(f, rows + more[..n], more[n]);
      assert rows + more[..n] + [more[n]] == rows + more;
    }
  }

  /** Hits found after part of the walk are the first hits of the whole walk. */
  lemma EnoughIsEnough(f: Filter, indexer: Indexer, limit: nat, consumed: seq<Row>, upTo: seq<Row>)
    requires limit > 0 && consumed <= upTo <= Walk(indexer, 0, None).rows && |Hits(f, consumed)| == limit
    ensures Search(f, indexer, Some(limit)) == Found(Hits(f, consumed))
  {
    var rows := Walk(indexer, 0, None).rows;
    assert rows == consumed + rows[|consumed|..];
    HitsPrefix(f, consumed, rows[|consumed|..]);
  }

  predicate Full(limit: Option<int>, refs: seq<AttemptRef>) {
    limit.Some? && |refs| >= limit.value
  }

  /** The rows taken so far, as the loops keep them. */
  ghost predicate Taken(f: Filter, consumed: seq<Row>, refs: seq<AttemptRef>, seen: set<RowKey>) {
    refs == Hits(f, consumed) && seen == Keys(EligibleRows(f, consumed))
  }

  /** The body of the inner loop. */
  method TakeRow(f: Filter, row: Row, refs: seq<AttemptRef>, seen: set<RowKey>, ghost consumed: seq<Row>)
    returns (refs': seq<AttemptRef>, seen': set<RowKey>)
    requires Taken(f, consumed, refs, seen)
    ensures Taken(f, consumed + [row], refs', seen') && |refs'| <= |refs| + 1
  {
    HitsAppend(f, consumed, row);
    refs', seen' := refs, seen;
    var polarity := PolarityOf(row);
    if polarity.None? || row.manifestCid == "" || row.instanceId == "" {
      return;
    }
    if row.instanceId in f.heldOut {
      return;
    }
    var key := RowKey(row.chainId, Lower(row.requestId), polarity.value);
    if key in seen {
      return;
    }
    seen' := seen + {key};
    var ref := ToAttemptRef(row, polarity.value);
    if !f.evidence(ref) {
      return;
    }
    refs' := refs + [ref];
  }

  /** The inner loop: the rows of one page, leaving as soon as there are enough hits. */
  method TakePage(
    f: Filter, items: seq<Row>, limit: Option<int>, refs: seq<AttemptRef>, seen: set<RowKey>,
    ghost consumed: seq<Row>)
    returns (refs': seq<AttemptRef>, seen': set<RowKey>, taken: nat)
    requires Taken(f, consumed, refs, seen) && !Full(limit, refs)
    ensures taken <= |items| && Taken(f, consumed + items[..taken], refs', seen')
    ensures Full(limit, refs') ==> |refs'| == limit.value
    ensures !Full(limit, refs') ==> taken == |items|
  {
    refs', seen', taken := refs, seen, 0;
    assert consumed + items[..0] == consumed;
    while taken < |items|
      invariant taken <= |items| && !Full(limit, refs')
      invariant Taken(f, consumed + items[..taken], refs', seen')
    {
      assert consumed + items[..taken] + [items[taken]] == consumed + items[..taken + 1];
      refs', seen' := TakeRow(f, items[taken], refs', seen', consumed + items[..taken]);
      taken := taken + 1;
      if limit.Some? && |refs'| >= limit.value {
        return;
      }
    }
  }

  /** The whole walk is what was consumed, followed by the walk from here on. */
  ghost predicate Consumed(indexer: Indexer, consumed: seq<Row>, page: nat, cursor: Option<string>) {
    var rest := Walk(indexer, page, cursor);
    Walk(indexer, 0, None) == Stream(consumed + rest.rows, rest.failed)
  }

  predicate IsLast(p: Page)
    requires p.Page?
  {
    !p.hasNext || p.endCursor.None? || p.endCursor.value == ""
  }

  /** A walk that ends without enough hits. */
  lemma NotEnough(f: Filter, indexer: Indexer, limit: Option<int>, consumed: seq<Row>, failed: bool)
    requires Walk(indexer, 0, None) == Stream(consumed, failed) && !Full(limit, Hits(f, consumed))
    ensures Search(f, indexer, limit) ==
            if failed then IndexerFailed else if Hits(f, consumed) == [] then NoneFound else Found(Hits(f, consumed))
  {
  }

  /** The state of the walk between two requests. */
  ghost predicate Between(
    f: Filter, indexer: Indexer, limit: Option<int>, page: nat, cursor: Option<string>, refs: seq<AttemptRef>,
    seen: set<RowKey>,
    consumed: seq<Row>)
  {
    Taken(f, consumed, refs, seen) && Consumed(indexer, consumed, page, cursor) && !Full(limit, refs)
  }

  /** The body of the outer loop: one request, and either the answer or the next cursor. */
  method RequestPage(
    f: Filter, indexer: Indexer, limit: Option<int>, page: nat, cursor: Option<string>, refs: seq<AttemptRef>,
    seen: set<RowKey>,
    ghost consumed: seq<Row>)
    returns (answer: Option<Answer>, next: Option<string>, refs': seq<AttemptRef>, seen': set<RowKey>,
        ghost consumed': seq<Row>)
    requires page < MAX_PAGES && Between(f, indexer, limit, page, cursor, refs, seen, consumed)
    ensures answer.Some? ==> answer.value == Search(f, indexer, limit)
    ensures answer.None? ==> Between(f, indexer, limit, page + 1, next, refs', seen', consumed')
  {
    next, refs', seen', consumed' := None, refs, seen, consumed;
    var response := indexer(page, cursor);
    if response.PageError? {
      NotEnough(f, indexer, limit, consumed, true);
      answer := Some(IndexerFailed);
      return;
    }
    var taken;
    refs', seen', taken := TakePage(f, response.items, limit, refs, seen, consumed);
    if Full(limit, refs') {
      EnoughIsEnough(f, indexer, limit.value, consumed + response.items[..taken], consumed + response.items);
      answer := Some(Found(refs'));
      return;
    }
    assert response.items[..taken] == response.items;
    consumed' := consumed + response.items;
    if IsLast(response) {
      NotEnough(f, indexer, limit, consumed', false);
      answer := Some(if refs' == [] then NoneFound else Found(refs'));
      return;
    }
    answer, next := None, response.endCursor;
  }

  lemma WalkEnds(
    f: Filter, indexer: Indexer, limit: Option<int>, cursor: Option<string>, refs: seq<AttemptRef>, seen: set<RowKey>,
    consumed: seq<Row>)
    requires Between(f, indexer, limit, MAX_PAGES, cursor, refs, seen, consumed)
    ensures Search(f, indexer, limit) == if refs == [] then NoneFound else Found(refs)
  {
    assert consumed + [] == consumed;
    NotEnough(f, indexer, limit, consumed, false);
  }

  /** `list`: page after page, leaving as soon as `limit` hits are there. */
  method List(f: Filter, indexer: Indexer, limit: Option<int>) returns (result: Answer)
    ensures result == Search(f, indexer, limit)
  {
    var refs: seq<AttemptRef> := [];
    var seen: set<RowKey> := {};
    var cursor: Option<string> := None;
    ghost var consumed: seq<Row> := [];
    assert [] + Walk(indexer, 0, None).rows == Walk(indexer, 0, None).rows;
    var page := 0;
    while page < MAX_PAGES && !Full(limit, refs)
      invariant 0 <= page <= MAX_PAGES
      invariant if NoRoom(limit) then refs == [] else Between(f, indexer, limit, page, cursor, refs, seen, consumed)
      decreases MAX_PAGES - page
    {
      var answer;
      answer, cursor, refs, seen, consumed := RequestPage(f, indexer, limit, page, cursor, refs, seen, consumed);
      if answer.Some? {
        return answer.value;
      }
      page := page + 1;
    }
    if !NoRoom(limit) {
      WalkEnds(f, indexer, limit, cursor, refs, seen, consumed);
    }
    result := if refs == [] then NoneFound else Found(refs);
  }

  // ---------------------------------------------------------------- what follows for the caller

  /** Places in a stream of rows, in stream order. */
  ghost predicate Increasing(places: seq<nat>, bound: nat) {
    && (forall i :: 0 <= i < |places| ==> places[i] < bound)
    && (forall i, j :: 0 <= i < j < |places| ==> places[i] < places[j])
  }

  /** Row `n` is eligible, has evidence, and is the first eligible row of its key. */
  ghost predicate IsHit(f: Filter, rows: seq<Row>, n: nat)
    requires n < |rows|
  {
    IsEligible(f, rows[n]) && f.evidence(RefOf(rows[n])) && KeyOf(rows[n]) !in Keys(EligibleRows(f, rows[..n]))
  }

  /** The hits are the references of the rows at these places. */
  ghost predicate HitsAt(f: Filter, rows: seq<Row>, hits: seq<AttemptRef>, places: seq<nat>) {
    && |places| == |hits| && Increasing(places, |rows|)
    && forall i :: 0 <= i < |places| ==> IsHit(f, rows, places[i]) && hits[i] == RefOf(rows[places[i]])
  }

  lemma HitsAtLonger(f: Filter, rows: seq<Row>, n: nat, hits: seq<AttemptRef>, places: seq<nat>)
    requires n <= |rows| && HitsAt(f, rows[..n], hits, places)
    ensures HitsAt(f, rows, hits, places)
  {
    forall i | 0 <= i < |places|
      ensures IsHit(f, rows, places[i]) && hits[i] == RefOf(rows[places[i]])
    {
      assert rows[..n][..places[i]] == rows[..places[i]];
      assert IsHit(f, rows[..n], places[i]);
    }
  }

  lemma HitsAtNext(f: Filter, rows: seq<Row>, n: nat, hits: seq<AttemptRef>, places: seq<nat>)
    requires n < |rows| && HitsAt(f, rows, hits, places) && Increasing(places, n) && IsHit(f, rows, n)
    ensures HitsAt(f, rows, hits + [RefOf(rows[n])], places + [n])
  {
    var longer := places + [n];
    assert forall i :: 0 <= i < |places| ==> longer[i] == places[i];
  }

  lemma HitInPrefix(f: Filter, rows: seq<Row>, n: nat, m: nat)
    requires m < n <= |rows|
    ensures IsHit(f, rows[..n], m) <==> IsHit(f, rows, m)
  {
    assert rows[..n][..m] == rows[..m];
  }

  /** The hits come from rows of the stream, in stream order, and no hit is left out. */
  lemma {:induction false} HitsComeInOrder(f: Filter, rows: seq<Row>) returns (places: seq<nat>)
    ensures HitsAt(f, rows, Hits(f, rows), places)
    ensures forall n :: 0 <= n < |rows| && IsHit(f, rows, n) ==> n in places
    decreases |rows|
  {
    if rows == [] {
      places := [];
    } else {
      var n := |rows| - 1;
      places := HitsComeInOrder(f, rows[..n]);
      places := NextPlaces(f, rows, n, places, Hits(f, rows[..n]));
    }
  }

  /** One more row of the stream: the hits grow by it exactly if it is one. */
  lemma HitsNext(f: Filter, rows: seq<Row>, n: nat)
    requires n == |rows| - 1
    ensures Hits(f, rows) == Hits(f, rows[..n]) + if IsHit(f, rows, n) then [RefOf(rows[n])] else []
  {
    HitsAppend(f, rows[..n], rows[n]);
    assert rows[..n] + [rows[n]] == rows;
  }

  lemma NextPlaces(f: Filter, rows: seq<Row>, n: nat, before: seq<nat>, hits: seq<AttemptRef>)
    returns (places: seq<nat>)
    requires n == |rows| - 1 && hits == Hits(f, rows[..n]) && HitsAt(f, rows[..n], hits, before)
    requires forall m :: 0 <= m < n && IsHit(f, rows[..n], m) ==> m in before
    ensures HitsAt(f, rows, Hits(f, rows), places)
    ensures forall m :: 0 <= m < |rows| && IsHit(f, rows, m) ==> m in places
  {
    HitsAtLonger(f, rows, n, hits, before);
    HitsNext(f, rows, n);
    forall m | 0 <= m < n && IsHit(f, rows, m)
      ensures m in before
    {
      HitInPrefix(f, rows, n, m);
    }
    places := before;
    if IsHit(f, rows, n) {
      HitsAtNext(f, rows, n, hits, before);
      places := before + [n];
    }
  }

  /** A row counts exactly if test result and verdict agree, it names its manifest and its
      instance, and the instance is not held out; its reference copies the row, and its
      polarity is the test result. */
  lemma EligibleIff(f: Filter, r: Row)
    ensures IsEligible(f, r) <==>
              && ((r.passed && r.verdict == "PASS") || (!r.passed && r.verdict == "FAIL"))
              && r.manifestCid != "" && r.instanceId != "" && r.instanceId !in f.heldOut
    ensures IsEligible(f, r) ==>
              && RefOf(r) == AttemptRef(
                   r.requestId, r.chainId, r.instanceId, if r.passed then Pass else Fail, r.manifestCid)
              && KeyOf(r) == RowKey(r.chainId, Lower(r.requestId), if r.passed then Pass else Fail)
  {
  }

  /** The pages of a walk: each is the answer to the next request, made with the cursor of the
      page before; all but the last name a further page. */
  ghost predicate ArePages(indexer: Indexer, n: nat, cursor: Option<string>, pages: seq<Page>) {
    && (forall i :: 0 <= i < |pages| ==> pages[i] == indexer(n + i, CursorBefore(cursor, pages, i)))
    && (forall i :: 0 <= i < |pages| - 1 ==> NamesMore(pages[i]))
  }

  function CursorBefore(cursor: Option<string>, pages: seq<Page>, i: nat): Option<string>
    requires i <= |pages|
  {
    if i == 0 then cursor else CursorOf(pages[i - 1])
  }

  function CursorOf(p: Page): Option<string> {
    if p.Page? then p.endCursor else None
  }

  predicate NamesMore(p: Page) {
    p.Page? && p.hasNext && p.endCursor.Some? && p.endCursor.value != ""
  }

  function Items(pages: seq<Page>): seq<Row> {
    if pages == [] then [] else (if pages[0].Page? then pages[0].items else []) + Items(pages[1..])
  }

  lemma PagesCons(indexer: Indexer, n: nat, cursor: Option<string>, rest: seq<Page>)
    requires NamesMore(indexer(n, cursor)) && ArePages(indexer, n + 1, CursorOf(indexer(n, cursor)), rest)
    ensures ArePages(indexer, n, cursor, [indexer(n, cursor)] + rest)
  {
    var pages := [indexer(n, cursor)] + rest;
    forall i | 0 <= i < |pages|
      ensures pages[i] == indexer(n + i, CursorBefore(cursor, pages, i))
    {
      if i > 0 {
        var k := i - 1;
        assert pages[i] == rest[k] == indexer(n + 1 + k, CursorBefore(CursorOf(pages[0]), rest, k));
        assert k > 0 ==> pages[k] == rest[k - 1];
      }
    }
  }

  lemma ItemsCons(page: Page, rest: seq<Page>)
    ensures Items([page] + rest) == (if page.Page? then page.items else []) + Items(rest)
  {
    assert ([page] + rest)[1..] == rest;
  }

  lemma LastPage(indexer: Indexer, n: nat, cursor: Option<string>)
    requires n < 50 && !NamesMore(indexer(n, cursor))
    ensures var page := indexer(n, cursor);
            ArePages(indexer, n, cursor, [page]) && Walk(indexer, n, cursor) == Stream(Items([page]), page.PageError?)
  {
    ItemsCons(indexer(n, cursor), []);
    assert [indexer(n, cursor)] + [] == [indexer(n, cursor)];
  }

  lemma MorePages(indexer: Indexer, n: nat, cursor: Option<string>, rest: seq<Page>)
    requires n < 50 && NamesMore(indexer(n, cursor))
    requires Walk(indexer, n + 1, CursorOf(indexer(n, cursor)))
             == Stream(Items(rest), rest != [] && rest[|rest| - 1].PageError?)
    ensures var pages := [indexer(n, cursor)] + rest;
            Walk(indexer, n, cursor) == Stream(Items(pages), pages[|pages| - 1].PageError?)
  {
    ItemsCons(indexer(n, cursor), rest);
  }

  /** A walk is its pages: it stops after fifty, at an error, or where no further page is named;
      its rows are their items, and it has failed exactly if the last one is an error. */
  lemma {:induction false} WalkIsPages(indexer: Indexer, n: nat, cursor: Option<string>) returns (pages: seq<Page>)
    requires n <= 50
    ensures ArePages(indexer, n, cursor, pages) && n + |pages| <= 50
    ensures n + |pages| == 50 || (pages != [] && !NamesMore(pages[|pages| - 1]))
    ensures Walk(indexer, n, cursor) == Stream(Items(pages), pages != [] && pages[|pages| - 1].PageError?)
    decreases 50 - n
  {
    if n == 50 {
      pages := [];
    } else if NamesMore(indexer(n, cursor)) {
      var rest := WalkIsPages(indexer, n + 1, CursorOf(indexer(n, cursor)));
      PagesCons(indexer, n, cursor, rest);
      MorePages(indexer, n, cursor, rest);
      pages := [indexer(n, cursor)] + rest;
    } else {
      LastPage(indexer, n, cursor);
      pages := [indexer(n, cursor)];
    }
  }

  /** What the caller gets: nothing without room; the first hits if there are enough of them,
      even if the walk failed later; the failure if it came before that; all hits, if any. */
  lemma SearchSays(f: Filter, indexer: Indexer, limit: Option<int>)
    ensures var walk, r := Walk(indexer, 0, None), Search(f, indexer, limit);
            var hits := Hits(f, walk.rows);
            var room, enough := limit.None? || limit.value > 0, limit.Some? && |hits| >= limit.value;
            && (r.IndexerFailed? <==> room && !enough && walk.failed)
            && (r.NoneFound? <==> !room || (!enough && !walk.failed && hits == []))
            && (r.Found? ==> hits != [] && r.refs <= hits && r.refs != [])
            && (r.Found? ==> |r.refs| == if enough then limit.value else |hits|)
  {
  }

  function RefKey(r: AttemptRef): RowKey {
    RowKey(r.chainId, Lower(r.requestId), r.polarity)
  }

  lemma {:induction false} EligibleKey(f: Filter, rows: seq<Row>, i: nat)
    requires i < |rows| && IsEligible(f, rows[i])
    ensures KeyOf(rows[i]) in Keys(EligibleRows(f, rows))
    decreases |rows|
  {
    var n := |rows| - 1;
    HitsAppend(f, rows[..n], rows[n]);
    assert rows[..n] + [rows[n]] == rows;
    if i < n {
      assert rows[..n][i] == rows[i];
      EligibleKey(f, rows[..n], i);
    }
  }

  /** A successful search returns at most `limit` hits, none of them held
      out, each with evidence, and no two with the same key. */
  lemma FoundIsClean(f: Filter, indexer: Indexer, limit: Option<int>, i: nat, j: nat)
    requires Search(f, indexer, limit).Found?
    requires i <= j < |Search(f, indexer, limit).refs|
    ensures var refs := Search(f, indexer, limit).refs;
            && (limit.Some? ==> |refs| <= limit.value)
            && (i < j ==> RefKey(refs[i]) != RefKey(refs[j]))
            && refs[j].instanceId !in f.heldOut && f.evidence(refs[j])
  {
    var rows := Walk(indexer, 0, None).rows;
    var places := HitsComeInOrder(f, rows);
    var a, b := places[i], places[j];
    assert IsHit(f, rows, a) && IsHit(f, rows, b);
    if i < j {
      EligibleKey(f, rows[..b], a);
      assert rows[..b][a] == rows[a];
    }
  }
}
