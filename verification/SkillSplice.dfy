/** Regeneration of the two tables of SKILL.md between their markers, and the drift check
    that repeats it. */
module SkillSplice {
  import opened Text

  /** `src.indexOf(pat)`, with None for -1 */
  function IndexFrom(src: string, pat: string, from: nat): (r: Option<nat>)
    requires from <= |src| + 1
    ensures r.Some? ==> from <= r.value <= |src| - |pat|
    decreases |src| + 1 - from
  {
    if from > |src| then None
    else if At(src, pat, from) then Some(from)
    else IndexFrom(src, pat, from + 1)
  }

  function IndexOf(src: string, pat: string): Option<nat> {
    IndexFrom(src, pat, 0)
  }

  /** A start and an end marker. */
  datatype Tag = Tag(start: string, end: string)

  function TagFor(name: string): Tag {
    Tag("<!-- skill:" + name + ":start -->", "<!-- skill:" + name + ":end -->")
  }

  const CLI := TagFor("cli-table")
  const MCP := TagFor("mcp-table")

  function Framed(content: string): string {
    "\n" + content + "\n"
  }

  /** `spliceRegion`; None is the error for missing markers. */
  function Splice(src: string, tag: Tag, content: string): Option<string> {
    var startIdx := IndexOf(src, tag.start);
    var endIdx := IndexOf(src, tag.end);
    if startIdx.None? || endIdx.None? then None
    else Some(src[..startIdx.value + |tag.start|] + Framed(content) + src[endIdx.value..])
  }

  /** The generator: both tables, one after the other. */
  function Generate(skill: string, cli: string, mcp: string): Option<string> {
    var first := Splice(skill, CLI, cli);
    if first.None? then None else Splice(first.value, MCP, mcp)
  }

  /** The drift check passes. */
  predicate CheckPasses(committed: string, cli: string, mcp: string) {
    Generate(committed, cli, mcp) == Some(committed)
  }

  // ---------------------------------------------------------------- searching around a replaced middle

  /** `i` is the first index of `pat`. */
  ghost predicate FirstAt(s: string, pat: string, i: nat) {
    At(s, pat, i) && forall j :: 0 <= j < i ==> !At(s, pat, j)
  }

  lemma {:induction false} IndexFromIsFirst(s: string, pat: string, from: nat, i: nat)
    requires from <= i && from <= |s| + 1
    ensures IndexFrom(s, pat, from) == Some(i) <==> At(s, pat, i) && forall j :: from <= j < i ==> !At(s, pat, j)
    decreases |s| + 1 - from
  {
    if from <= |s| && !At(s, pat, from) && from < i {
      IndexFromIsFirst(s, pat, from + 1, i);
    }
  }

  lemma FirstAtIsIndexOf(s: string, pat: string, i: nat)
    ensures FirstAt(s, pat, i) <==> IndexOf(s, pat) == Some(i)
  {
    IndexFromIsFirst(s, pat, 0, i);
  }

  lemma {:induction false} IndexFromFinds(s: string, pat: string, from: nat, i: nat)
    requires from <= i && from <= |s| + 1 && At(s, pat, i)
    ensures IndexFrom(s, pat, from).Some? && IndexFrom(s, pat, from).value <= i
    decreases |s| + 1 - from
  {
    if !At(s, pat, from) {
      IndexFromFinds(s, pat, from + 1, i);
    }
  }

  lemma AtInPrefix(p: string, q: string, pat: string, i: nat)
    requires i + |pat| <= |p|
    ensures At(p + q, pat, i) <==> At(p, pat, i)
  {
    assert (p + q)[i..i + |pat|] == p[i..i + |pat|];
  }

  lemma AtInSuffix(p: string, q: string, pat: string, i: nat)
    requires |p| <= i
    ensures At(p + q, pat, i) <==> At(q, pat, i - |p|)
  {
    if i + |pat| <= |p + q| {
      assert (p + q)[i..i + |pat|] == q[i - |p|..i - |p| + |pat|];
    }
  }

  /** A search that ends inside the common prefix is not affected by what follows it. */
  lemma FirstInPrefix(p: string, q: string, q': string, pat: string, i: nat)
    requires FirstAt(p + q, pat, i) && i + |pat| <= |p|
    ensures FirstAt(p + q', pat, i)
  {
    AtInPrefix(p, q, pat, i);
    AtInPrefix(p, q', pat, i);
    forall j | 0 <= j < i
      ensures !At(p + q', pat, j)
    {
      AtInPrefix(p, q, pat, j);
      AtInPrefix(p, q', pat, j);
    }
  }

  lemma AvoidsNewline(s: string, pat: string, j: nat, n: nat)
    requires At(s, pat, j) && '\n' !in pat && n < |s| && s[n] == '\n'
    ensures n < j || j + |pat| <= n
  {
    assert forall k :: j <= k < j + |pat| ==> s[k] == pat[k - j];
  }

  lemma InContent(p: string, content: string, q: string, pat: string, j: nat)
    requires At(p + Framed(content) + q, pat, j) && |p| < j && j + |pat| <= |p| + 1 + |content|
    ensures Includes(content, pat)
  {
    assert At(content, pat, j - |p| - 1);
  }

  /** A pattern without newlines does not touch framed content that does not include it. */
  lemma FrameIsOpaque(p: string, content: string, q: string, pat: string, j: nat)
    requires '\n' !in pat && pat != [] && !Includes(content, pat)
    requires At(p + Framed(content) + q, pat, j)
    ensures j + |pat| <= |p| || |p + Framed(content)| <= j
  {
    AvoidsNewline(p + Framed(content) + q, pat, j, |p|);
    AvoidsNewline(p + Framed(content) + q, pat, j, |p| + |content| + 1);
    if |p| < j && j + |pat| <= |p| + 1 + |content| {
      InContent(p, content, q, pat, j);
    }
  }

  /** A search that ends in the suffix shifts with it when the middle is replaced. */
  lemma FirstInSuffix(p: string, m: string, content: string, q: string, pat: string, i: nat)
    requires '\n' !in pat && pat != [] && !Includes(content, pat)
    requires FirstAt(p + m + q, pat, i) && |p| + |m| <= i
    ensures FirstAt(p + Framed(content) + q, pat, i - |m| + |Framed(content)|)
  {
    var n := Framed(content);
    AtInSuffix(p + m, q, pat, i);
    AtInSuffix(p + n, q, pat, i - |m| + |n|);
    forall j | 0 <= j < i - |m| + |n|
      ensures !At(p + n + q, pat, j)
    {
      if At(p + n + q, pat, j) {
        FrameIsOpaque(p, content, q, pat, j);
        if j + |pat| <= |p| {
          assert p + n + q == p + (n + q) && p + m + q == p + (m + q);
          AtInPrefix(p, n + q, pat, j);
          AtInPrefix(p, m + q, pat, j);
        } else {
          AtInSuffix(p + n, q, pat, j);
          AtInSuffix(p + m, q, pat, j - |n| + |m|);
        }
      }
    }
  }

  // ---------------------------------------------------------------- documents with two regions

  predicate IsMarker(m: string) {
    m != [] && m[0] == '<' && (forall i :: 0 < i < |m| ==> m[i] != '<') && '\n' !in m
  }

  predicate Markers(x: Tag) {
    IsMarker(x.start) && IsMarker(x.end)
  }

  /** Where the four markers of two regions stand, the first region being that of `x`. */
  datatype Places = Places(startX: nat, endX: nat, startY: nat, endY: nat)

  /** The two regions of `s` are disjoint and in order, each marker meaning its first
      occurrence. */
  predicate Regions(s: string, x: Tag, y: Tag, at: Places) {
    && MarkersAt(s, x, y, at)
    && at.startX + |x.start| <= at.endX
    && at.endX + |x.end| <= at.startY
    && at.startY + |y.start| <= at.endY
  }

  /** The content holds none of the four markers. */
  predicate Unmarked(content: string, x: Tag, y: Tag) {
    !Includes(content, x.start) && !Includes(content, x.end) && !Includes(content, y.start) && !Includes(content, y.end)
  }

  lemma SpliceAt(src: string, tag: Tag, content: string, s: nat, e: nat)
    requires FirstAt(src, tag.start, s) && FirstAt(src, tag.end, e)
    ensures Splice(src, tag, content) == Some(src[..s + |tag.start|] + Framed(content) + src[e..])
  {
    FirstAtIsIndexOf(src, tag.start, s);
    FirstAtIsIndexOf(src, tag.end, e);
  }

  /** Splicing between the prefix `p`, which ends with the start marker, and the suffix `q`,
      which begins with the end marker. */
  lemma SpliceBetween(src: string, tag: Tag, content: string, p: string, m: string, q: string, s: nat)
    requires src == p + m + q && s + |tag.start| == |p|
    requires FirstAt(src, tag.start, s) && FirstAt(src, tag.end, |p| + |m|)
    ensures Splice(src, tag, content) == Some(p + Framed(content) + q)
  {
    SpliceAt(src, tag, content, s, |p| + |m|);
    assert src[..|p|] == p && src[|p| + |m|..] == q;
  }

  function Replaced(s: string, lo: nat, hi: nat, content: string): string
    requires lo <= hi <= |s|
  {
    s[..lo] + Framed(content) + s[hi..]
  }

  /** The places after the first or the second region got new content. */
  function AfterFirst(x: Tag, at: Places, content: string): Places
    requires at.startX + |x.start| <= at.endX <= at.startY && at.endX <= at.endY
  {
    var end := at.startX + |x.start| + |Framed(content)|;
    Places(at.startX, end, at.startY - at.endX + end, at.endY - at.endX + end)
  }

  function AfterSecond(y: Tag, at: Places, content: string): Places {
    at.(endY := at.startY + |y.start| + |Framed(content)|)
  }

  predicate MarkersAt(s: string, x: Tag, y: Tag, at: Places) {
    && IndexOf(s, x.start) == Some(at.startX) && IndexOf(s, x.end) == Some(at.endX)
    && IndexOf(s, y.start) == Some(at.startY) && IndexOf(s, y.end) == Some(at.endY)
  }

  lemma Sliced(s: string, lo: nat, hi: nat)
    requires lo <= hi <= |s|
    ensures s == s[..lo] + s[lo..hi] + s[hi..] == s[..lo] + s[lo..]
  {
  }

  /** A marker before replaced text stays where it is, whatever the new text. */
  lemma MarkerStays(s: string, lo: nat, hi: nat, content: string, pat: string, i: nat)
    requires lo <= hi <= |s| && IndexOf(s, pat) == Some(i) && i + |pat| <= lo
    ensures IndexOf(Replaced(s, lo, hi, content), pat) == Some(i)
  {
    FirstAtIsIndexOf(s, pat, i);
    FirstAtIsIndexOf(Replaced(s, lo, hi, content), pat, i);
    Sliced(s, lo, hi);
    FirstInPrefix(s[..lo], s[lo..], Framed(content) + s[hi..], pat, i);
    assert s[..lo] + (Framed(content) + s[hi..]) == Replaced(s, lo, hi, content);
  }

  /** A marker after replaced text moves along with it. */
  lemma MarkerShifts(s: string, lo: nat, hi: nat, content: string, pat: string, i: nat)
    requires lo <= hi <= |s| && IsMarker(pat) && !Includes(content, pat) && IndexOf(s, pat) == Some(i) && hi <= i
    ensures IndexOf(Replaced(s, lo, hi, content), pat) == Some(i - hi + lo + |Framed(content)|)
  {
    FirstAtIsIndexOf(s, pat, i);
    FirstAtIsIndexOf(Replaced(s, lo, hi, content), pat, i - hi + lo + |Framed(content)|);
    Sliced(s, lo, hi);
    FirstInSuffix(s[..lo], s[lo..hi], content, s[hi..], pat, i);
  }

  /** Splicing the first region replaces its content; the second moves along unchanged. */
  lemma SpliceFirst(s: string, x: Tag, y: Tag, at: Places, content: string)
    requires Markers(x) && Markers(y) && Regions(s, x, y, at) && Unmarked(content, x, y)
    ensures var r := Replaced(s, at.startX + |x.start|, at.endX, content);
            Splice(s, x, content) == Some(r) && Regions(r, x, y, AfterFirst(x, at, content))
  {
    var lo, hi := at.startX + |x.start|, at.endX;
    MarkerStays(s, lo, hi, content, x.start, at.startX);
    MarkerShifts(s, lo, hi, content, x.end, at.endX);
    MarkerShifts(s, lo, hi, content, y.start, at.startY);
    MarkerShifts(s, lo, hi, content, y.end, at.endY);
  }

  /** Splicing the second region replaces its content; the first stays as it is. */
  lemma SpliceSecond(s: string, x: Tag, y: Tag, at: Places, content: string)
    requires Markers(x) && Markers(y) && Regions(s, x, y, at) && Unmarked(content, x, y)
    ensures var r := Replaced(s, at.startY + |y.start|, at.endY, content);
            Splice(s, y, content) == Some(r) && Regions(r, x, y, AfterSecond(y, at, content))
  {
    var lo, hi := at.startY + |y.start|, at.endY;
    MarkerStays(s, lo, hi, content, x.start, at.startX);
    MarkerStays(s, lo, hi, content, x.end, at.endX);
    MarkerStays(s, lo, hi, content, y.start, at.startY);
    MarkerShifts(s, lo, hi, content, y.end, at.endY);
  }

  /** Neither marker of a tag begins with the other. */
  predicate Apart(x: Tag) {
    !(x.start <= x.end) && !(x.end <= x.start)
  }

  lemma TagForMarkers(name: string)
    requires '<' !in name && '\n' !in name
    ensures Markers(TagFor(name)) && Apart(TagFor(name))
  {
    var t := TagFor(name);
    var split := |"<!-- skill:" + name + ":"|;
    assert t.start[split] == 's' && t.end[split] == 'e';
    MarkerParts(name, ":start -->");
    MarkerParts(name, ":end -->");
  }

  lemma MarkerParts(name: string, tail: string)
    requires '<' !in name && '\n' !in name && '<' !in tail && '\n' !in tail
    ensures IsMarker("<!-- skill:" + name + tail)
  {
    var head := "<!-- skill:";
    assert forall i :: 0 < i < |head| ==> head[i] != '<';
  }

  /** The document `s` with the contents of its two regions replaced and everything outside
      them, up to and including the markers, kept. */
  function Rewritten(s: string, x: Tag, y: Tag, at: Places, first: string, second: string): string
    requires at.startX + |x.start| <= at.endX <= at.startY + |y.start| <= at.endY <= |s|
  {
    s[..at.startX + |x.start|] + Framed(first) + s[at.endX..at.startY + |y.start|] + Framed(second) + s[at.endY..]
  }

  predicate InPlace(s: string, x: Tag, y: Tag, at: Places) {
    at.startX + |x.start| <= at.endX <= at.startY <= at.startY + |y.start| <= at.endY <= |s|
  }

  lemma RewrittenInOrder(s: string, x: Tag, y: Tag, at: Places, first: string, second: string)
    requires InPlace(s, x, y, at)
    ensures var r := Replaced(s, at.startX + |x.start|, at.endX, first);
            var at' := AfterFirst(x, at, first);
            InPlace(r, x, y, at')
            && Replaced(r, at'.startY + |y.start|, at'.endY, second) == Rewritten(s, x, y, at, first, second)
  {
    var r := Replaced(s, at.startX + |x.start|, at.endX, first);
    var at' := AfterFirst(x, at, first);
    assert r[..at'.startY + |y.start|] == s[..at.startX + |x.start|] + Framed(first)
        + s[at.endX..at.startY + |y.start|];
    assert r[at'.endY..] == s[at.endY..];
  }

  lemma RewrittenInReverse(s: string, x: Tag, y: Tag, at: Places, first: string, second: string)
    requires InPlace(s, x, y, at)
    ensures var r := Replaced(s, at.startY + |y.start|, at.endY, second);
            && InPlace(r, x, y, AfterSecond(y, at, second))
            && Replaced(r, at.startX + |x.start|, at.endX, first) == Rewritten(s, x, y, at, first, second)
  {
    var r := Replaced(s, at.startY + |y.start|, at.endY, second);
    assert r[..at.startX + |x.start|] == s[..at.startX + |x.start|];
    assert r[at.endX..] == s[at.endX..at.startY + |y.start|] + Framed(second) + s[at.endY..];
  }

  lemma RewriteAgain(s: string, x: Tag, y: Tag, at: Places, first: string, second: string)
    requires at.startX + |x.start| <= at.endX <= at.startY <= at.startY + |y.start| <= at.endY <= |s|
    ensures var r := Rewritten(s, x, y, at, first, second);
            var at' := AfterSecond(y, AfterFirst(x, at, first), second);
            && at'.startX + |x.start| <= at'.endX <= at'.startY + |y.start| <= at'.endY <= |r|
            && Rewritten(r, x, y, at', first, second) == r
  {
    var r := Rewritten(s, x, y, at, first, second);
    var at' := AfterSecond(y, AfterFirst(x, at, first), second);
    var a, b := at.startX + |x.start|, at.startX + |x.start| + |Framed(first)|;
    assert r[..a] == s[..a];
    assert r[b..at'.startY + |y.start|] == s[at.endX..at.startY + |y.start|];
    assert r[at'.endY..] == s[at.endY..];
  }

  /** Splicing the first region, then the second. */
  lemma InOrder(s: string, x: Tag, y: Tag, at: Places, first: string, second: string)
    requires Markers(x) && Markers(y) && Regions(s, x, y, at) && Unmarked(first, x, y) && Unmarked(second, x, y)
    ensures var r := Splice(s, x, first);
            r.Some? && Splice(r.value, y, second) == Some(Rewritten(s, x, y, at, first, second))
    ensures Regions(Rewritten(s, x, y, at, first, second), x, y, AfterSecond(y, AfterFirst(x, at, first), second))
  {
    var r := Replaced(s, at.startX + |x.start|, at.endX, first);
    SpliceFirst(s, x, y, at, first);
    RewrittenInOrder(s, x, y, at, first, second);
    SpliceSecond(r, x, y, AfterFirst(x, at, first), second);
  }

  lemma PlacesCommute(s: string, x: Tag, y: Tag, at: Places, first: string, second: string)
    requires InPlace(s, x, y, at)
    ensures AfterFirst(x, AfterSecond(y, at, second), first) == AfterSecond(y, AfterFirst(x, at, first), second)
  {
  }

  /** Splicing the second region, then the first. */
  lemma InReverse(s: string, x: Tag, y: Tag, at: Places, first: string, second: string)
    requires Markers(x) && Markers(y) && Regions(s, x, y, at) && Unmarked(first, x, y) && Unmarked(second, x, y)
    ensures var r := Splice(s, y, second);
            r.Some? && Splice(r.value, x, first) == Some(Rewritten(s, x, y, at, first, second))
    ensures Regions(Rewritten(s, x, y, at, first, second), x, y, AfterSecond(y, AfterFirst(x, at, first), second))
  {
    var r := Replaced(s, at.startY + |y.start|, at.endY, second);
    SpliceSecond(s, x, y, at, second);
    RewrittenInReverse(s, x, y, at, first, second);
    PlacesCommute(s, x, y, at, first, second);
    SpliceFirst(r, x, y, AfterSecond(y, at, second), first);
  }

  /** Which region comes first. */
  function First(cliFirst: bool): Tag { if cliFirst then CLI else MCP }
  function Second(cliFirst: bool): Tag { if cliFirst then MCP else CLI }

  function Tables(cliFirst: bool, s: string, at: Places, cli: string, mcp: string): string
    requires at.startX + |First(cliFirst).start| <= at.endX <= at.startY + |Second(cliFirst).start| <= at.endY <= |s|
  {
    if cliFirst then Rewritten(s, CLI, MCP, at, cli, mcp) else Rewritten(s, MCP, CLI, at, mcp, cli)
  }

  function TablePlaces(cliFirst: bool, at: Places, cli: string, mcp: string): Places
    requires at.startX + |First(cliFirst).start| <= at.endX <= at.startY && at.endX <= at.endY
  {
    if cliFirst then AfterSecond(MCP, AfterFirst(CLI, at, cli), mcp)
    else AfterSecond(CLI, AfterFirst(MCP, at, mcp), cli)
  }

  /** Generation replaces the contents of the two regions by the framed tables and leaves
      every other character as it is, whichever region comes first; the result has its
      regions in the same order. */
  lemma GenerateReplacesRegions(cliFirst: bool, s: string, at: Places, cli: string, mcp: string)
    requires Regions(s, First(cliFirst), Second(cliFirst), at)
    requires Unmarked(cli, CLI, MCP) && Unmarked(mcp, CLI, MCP)
    ensures Generate(s, cli, mcp) == Some(Tables(cliFirst, s, at, cli, mcp))
    ensures Regions(Tables(cliFirst, s, at, cli, mcp), First(cliFirst), Second(cliFirst),
        TablePlaces(cliFirst, at, cli, mcp))
  {
    TagForMarkers("cli-table");
    TagForMarkers("mcp-table");
    if cliFirst {
      InOrder(s, CLI, MCP, at, cli, mcp);
    } else {
      InReverse(s, MCP, CLI, at, mcp, cli);
    }
  }

  /** Generating twice is generating once, and the check accepts what was generated. */
  lemma GenerateIsIdempotent(cliFirst: bool, s: string, at: Places, cli: string, mcp: string)
    requires Regions(s, First(cliFirst), Second(cliFirst), at)
    requires Unmarked(cli, CLI, MCP) && Unmarked(mcp, CLI, MCP)
    ensures var generated := Generate(s, cli, mcp);
            && generated.Some?
            && Generate(generated.value, cli, mcp) == generated
            && CheckPasses(generated.value, cli, mcp)
  {
    var r := Tables(cliFirst, s, at, cli, mcp);
    GenerateReplacesRegions(cliFirst, s, at, cli, mcp);
    GenerateReplacesRegions(cliFirst, r, TablePlaces(cliFirst, at, cli, mcp), cli, mcp);
    if cliFirst {
      RewriteAgain(s, CLI, MCP, at, cli, mcp);
    } else {
      RewriteAgain(s, MCP, CLI, at, mcp, cli);
    }
  }

  // ---------------------------------------------------------------- exactly when one splice is stable

  /** Occurrences of markers do not overlap. */
  lemma MarkersApart(s: string, a: string, b: string, i: nat, j: nat)
    requires IsMarker(a) && IsMarker(b) && At(s, a, i) && At(s, b, j) && i < j
    ensures i + |a| <= j
  {
    assert s[j] == b[0];
    assert forall k :: i <= k < i + |a| ==> s[k] == a[k - i];
  }

  /** Splicing one region again changes nothing exactly when its start marker comes before
      its end marker and the content does not contain the end marker; otherwise the document
      grows with every pass. */
  lemma SpliceStable(src: string, tag: Tag, content: string)
    requires Markers(tag) && Apart(tag) && Splice(src, tag, content).Some?
    ensures var r := Splice(src, tag, content).value;
            var again := Splice(r, tag, content);
            var stable := IndexOf(src, tag.start).value < IndexOf(src, tag.end).value && !Includes(content, tag.end);
            && again.Some?
            && (again == Some(r) <==> stable)
            && (!stable ==> |again.value| > |r|)
  {
    var s, e := IndexOf(src, tag.start).value, IndexOf(src, tag.end).value;
    FirstAtIsIndexOf(src, tag.start, s);
    FirstAtIsIndexOf(src, tag.end, e);
    SpliceAt(src, tag, content, s, e);
    if s < e {
      SpliceForward(src, tag, content, s, e);
    } else if e < s {
      SpliceBackward(src, tag, content, s, e);
    } else {
      SamePlace(src, tag, s);
    }
  }

  /** Two markers at the same place: one begins with the other. */
  lemma SamePlace(src: string, tag: Tag, i: nat)
    requires At(src, tag.start, i) && At(src, tag.end, i)
    ensures !Apart(tag)
  {
    if |tag.start| <= |tag.end| {
      assert src[i..i + |tag.end|][..|tag.start|] == src[i..i + |tag.start|];
    } else {
      assert src[i..i + |tag.start|][..|tag.end|] == src[i..i + |tag.end|];
    }
  }

  /** The end marker inside the content is found before the one that follows it. */
  lemma FoundInContent(p: string, content: string, q: string, pat: string)
    requires Includes(content, pat)
    ensures IndexOf(p + Framed(content) + q, pat).Some?
    ensures IndexOf(p + Framed(content) + q, pat).value < |p + Framed(content)|
  {
    var r := p + Framed(content) + q;
    var i :| 0 <= i <= |content| && At(content, pat, i);
    var j := |p| + 1 + i;
    assert At(r, pat, j);
    IndexFromFinds(r, pat, 0, j);
  }

  lemma SpliceForward(src: string, tag: Tag, content: string, s: nat, e: nat)
    requires Markers(tag) && FirstAt(src, tag.start, s) && FirstAt(src, tag.end, e) && s < e
    ensures var r := src[..s + |tag.start|] + Framed(content) + src[e..];
            && Splice(r, tag, content).Some?
            && (!Includes(content, tag.end) ==> Splice(r, tag, content) == Some(r))
            && (Includes(content, tag.end) ==> |Splice(r, tag, content).value| > |r|)
  {
    MarkersApart(src, tag.start, tag.end, s, e);
    var p, m, q := src[..s + |tag.start|], src[s + |tag.start|..e], src[e..];
    assert src == p + m + q;
    StableForward(src, tag, content, p, m, q, s);
  }

  lemma StableForward(src: string, tag: Tag, content: string, p: string, m: string, q: string, s: nat)
    requires Markers(tag) && src == p + m + q && s + |tag.start| == |p|
    requires FirstAt(src, tag.start, s) && FirstAt(src, tag.end, |p| + |m|)
    ensures var r := p + Framed(content) + q;
            && Splice(r, tag, content).Some?
            && (!Includes(content, tag.end) ==> Splice(r, tag, content) == Some(r))
            && (Includes(content, tag.end) ==> |Splice(r, tag, content).value| > |r|)
  {
    var r := p + Framed(content) + q;
    assert src == p + (m + q) && r == p + (Framed(content) + q);
    FirstInPrefix(p, m + q, Framed(content) + q, tag.start, s);
    if Includes(content, tag.end) {
      FoundInContent(p, content, q, tag.end);
      var e := IndexOf(r, tag.end).value;
      FirstAtIsIndexOf(r, tag.end, e);
      SpliceAt(r, tag, content, s, e);
    } else {
      FirstInSuffix(p, m, content, q, tag.end, |p| + |m|);
      SpliceBetween(r, tag, content, p, Framed(content), q, s);
    }
  }

  lemma SpliceBackward(src: string, tag: Tag, content: string, s: nat, e: nat)
    requires Markers(tag) && FirstAt(src, tag.start, s) && FirstAt(src, tag.end, e) && e < s
    ensures var r := src[..s + |tag.start|] + Framed(content) + src[e..];
            Splice(r, tag, content).Some? && |Splice(r, tag, content).value| > |r|
  {
    MarkersApart(src, tag.end, tag.start, e, s);
    var p, rest := src[..s + |tag.start|], src[s + |tag.start|..];
    var tail := Framed(content) + src[e..];
    var r := p + Framed(content) + src[e..];
    assert src == p + rest && r == p + tail;
    FirstInPrefix(p, rest, tail, tag.start, s);
    FirstInPrefix(p, rest, tail, tag.end, e);
    SpliceAt(r, tag, content, s, e);
  }
}
