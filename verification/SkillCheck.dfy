/** Exactly which documents the drift check accepts, and after which generations it does. */
module SkillCheck {
  import opened Text
  import opened SkillSplice

  /** The region of `tag`, found by its first markers, holds exactly this framed content. */
  predicate Holds(doc: string, tag: Tag, content: string) {
    var s, e := IndexOf(doc, tag.start), IndexOf(doc, tag.end);
    && s.Some? && e.Some?
    && s.value + |tag.start| <= e.value
    && doc[s.value + |tag.start|..e.value] == Framed(content)
  }

  /** A splice changes nothing exactly if the region already holds the content. */
  lemma SpliceFixed(doc: string, tag: Tag, content: string)
    ensures Splice(doc, tag, content) == Some(doc) <==> Holds(doc, tag, content)
  {
    var s, e := IndexOf(doc, tag.start), IndexOf(doc, tag.end);
    if s.Some? && e.Some? {
      var k, f := s.value + |tag.start|, Framed(content);
      var r := doc[..k] + f + doc[e.value..];
      if r == doc {
        assert |r| == k + |f| + |doc| - e.value;
        assert r[k..e.value] == f;
      }
      if Holds(doc, tag, content) {
        assert doc == doc[..k] + doc[k..e.value] + doc[e.value..];
      }
    }
  }

  // ---------------------------------------------------------------- markers of two tags

  predicate Differ(a: string, b: string) {
    !(a <= b) && !(b <= a)
  }

  /** Two tags with four markers none of which begins with another. */
  predicate Pair(x: Tag, y: Tag) {
    && Markers(x) && Markers(y) && Apart(x) && Apart(y)
    && Differ(x.start, y.start) && Differ(x.start, y.end) && Differ(x.end, y.start) && Differ(x.end, y.end)
  }

  lemma TablesArePair()
    ensures Pair(CLI, MCP) && Pair(MCP, CLI)
  {
    TagForMarkers("cli-table");
    TagForMarkers("mcp-table");
    var n := |"<!-- skill:"|;
    assert CLI.start[n] == 'c' == CLI.end[n] && MCP.start[n] == 'm' == MCP.end[n];
  }

  lemma MarkerText(name: string, head: string, start: string, end: string)
    requires head == "<!-- skill:" + name && start == head + ":start -->" && end == head + ":end -->"
    ensures TagFor(name) == Tag(start, end)
  {
  }

  /** The four markers, letter by letter. */
  lemma MarkersAre()
    ensures CLI == Tag("<!-- skill:cli-table:start -->", "<!-- skill:cli-table:end -->")
    ensures MCP == Tag("<!-- skill:mcp-table:start -->", "<!-- skill:mcp-table:end -->")
  {
    MarkerText("cli-table", "<!-- skill:cli-table", "<!-- skill:cli-table:start -->", "<!-- skill:cli-table:end -->");
    MarkerText("mcp-table", "<!-- skill:mcp-table", "<!-- skill:mcp-table:start -->", "<!-- skill:mcp-table:end -->");
  }

  lemma AtSamePlace(s: string, a: string, b: string, i: nat)
    requires At(s, a, i) && At(s, b, i)
    ensures !Differ(a, b)
  {
    if |a| <= |b| {
      assert forall k :: 0 <= k < |a| ==> a[k] == s[i + k] == b[k];
      assert a == b[..|a|];
    } else {
      assert forall k :: 0 <= k < |b| ==> b[k] == s[i + k] == a[k];
      assert b == a[..|b|];
    }
  }

  lemma NoOverlap(s: string, a: string, b: string, i: nat, j: nat)
    requires IsMarker(a) && IsMarker(b) && Differ(a, b) && At(s, a, i) && At(s, b, j)
    ensures i + |a| <= j || j + |b| <= i
  {
    if i < j {
      MarkersApart(s, a, b, i, j);
    } else if j < i {
      MarkersApart(s, b, a, j, i);
    } else {
      AtSamePlace(s, a, b, i);
    }
  }

  lemma AtShared(s: string, t: string, n: nat, pat: string, i: nat)
    requires n <= |s| && n <= |t| && s[..n] == t[..n] && i + |pat| <= n
    ensures At(s, pat, i) <==> At(t, pat, i)
  {
    Sliced(s, n, n);
    Sliced(t, n, n);
    AtInPrefix(s[..n], s[n..], pat, i);
    AtInPrefix(t[..n], t[n..], pat, i);
  }

  // ---------------------------------------------------------------- the drift check

  /** A spliced text `tgt`: the front of `src` up to `k`, framed content, `src` from `b` on. */
  predicate Spliced(src: string, tgt: string, k: nat, content: string, b: nat) {
    k <= |src| && b <= |src| && tgt == src[..k] + Framed(content) + src[b..]
  }

  /** In the spliced text, a pattern behind the front stands behind the framed content. */
  lemma BehindFrame(src: string, tgt: string, k: nat, content: string, b: nat, pat: string, i: nat)
    requires Spliced(src, tgt, k, content, b) && IsMarker(pat) && !Includes(content, pat)
    requires k <= i && At(tgt, pat, i)
    ensures k + |Framed(content)| <= i
  {
    FrameIsOpaque(src[..k], content, src[b..], pat, i);
  }

  /** Places behind the framed content are places behind `b`. */
  lemma BehindSplice(src: string, tgt: string, k: nat, content: string, b: nat, pat: string, i: nat)
    requires Spliced(src, tgt, k, content, b) && k + |Framed(content)| <= i
    ensures At(tgt, pat, i) <==> At(src, pat, b + i - (k + |Framed(content)|))
  {
    AtInSuffix(src[..k] + Framed(content), src[b..], pat, i);
  }

  /** The end marker that follows the framed content comes before `pat`. */
  lemma EndComesFirst(src: string, tgt: string, k: nat, content: string, b: nat, end: string, pat: string, c: nat)
    requires Spliced(src, tgt, k, content, b) && IsMarker(end) && IsMarker(pat) && Differ(end, pat)
    requires At(src, end, b) && At(tgt, pat, c) && k + |Framed(content)| <= c
    ensures At(tgt, end, k + |Framed(content)|) && k + |Framed(content)| + |end| <= c
  {
    var q := k + |Framed(content)|;
    BehindSplice(src, tgt, k, content, b, end, q);
    NoOverlap(tgt, end, pat, q, c);
  }

  /** A splice that leaves everything up to and including the first `pat` behind it as it was
      takes out as much as it puts in. */
  lemma NothingMoves(src: string, tgt: string, k: nat, content: string, b: nat, end: string, pat: string, c: nat)
    requires Spliced(src, tgt, k, content, b)
    requires IsMarker(end) && IsMarker(pat) && Differ(end, pat) && !Includes(content, pat)
    requires FirstAt(src, end, b) && FirstAt(src, pat, c) && At(tgt, pat, c) && k <= c
    requires src[..c + |pat|] == tgt[..c + |pat|]
    ensures b == k + |Framed(content)| <= c
  {
    var q := k + |Framed(content)|;
    BehindFrame(src, tgt, k, content, b, pat, c);
    EndComesFirst(src, tgt, k, content, b, end, pat, c);
    AtShared(src, tgt, c + |pat|, end, q);
    assert b <= q;
    BehindSplice(src, tgt, k, content, b, pat, c);
    assert c <= b + c - q;
  }

  /** What a splice leaves in front of the replaced text, and the first start marker there. */
  lemma SpliceKeepsFront(src: string, tgt: string, x: Tag, content: string, s: nat)
    requires Splice(src, x, content) == Some(tgt) && IndexOf(src, x.start) == Some(s)
    ensures IndexOf(tgt, x.start) == Some(s)
    ensures s + |x.start| <= |src| && s + |x.start| <= |tgt| && src[..s + |x.start|] == tgt[..s + |x.start|]
  {
    var e := IndexOf(src, x.end).value;
    FirstAtIsIndexOf(src, x.start, s);
    var p, tail := src[..s + |x.start|], Framed(content) + src[e..];
    assert tgt == p + tail && src == p + src[s + |x.start|..];
    FirstInPrefix(p, src[s + |x.start|..], tail, x.start, s);
    FirstAtIsIndexOf(tgt, x.start, s);
  }

  lemma SpliceIsSpliced(src: string, tgt: string, x: Tag, content: string)
    requires Splice(src, x, content) == Some(tgt)
    ensures var k, b := IndexOf(src, x.start).value + |x.start|, IndexOf(src, x.end).value;
            Spliced(src, tgt, k, content, b) && FirstAt(src, x.end, b)
  {
    FirstAtIsIndexOf(src, x.start, IndexOf(src, x.start).value);
    FirstAtIsIndexOf(src, x.end, IndexOf(src, x.end).value);
  }

  /** A splice that leaves the first `pat` behind it, and all before that, has changed nothing. */
  lemma UnmovedMeansSame(src: string, tgt: string, x: Tag, content: string, pat: string, c: nat)
    requires Markers(x) && IsMarker(pat) && Differ(x.end, pat) && !Includes(content, pat)
    requires Splice(src, x, content) == Some(tgt) && IndexOf(src, x.start).value + |x.start| <= c
    requires IndexOf(src, pat) == Some(c) == IndexOf(tgt, pat)
    requires c + |pat| <= |src| && c + |pat| <= |tgt| && src[..c + |pat|] == tgt[..c + |pat|]
    ensures src == tgt
  {
    FirstAtIsIndexOf(src, pat, c);
    FirstAtIsIndexOf(tgt, pat, c);
    var k, b := IndexOf(src, x.start).value + |x.start|, IndexOf(src, x.end).value;
    SpliceIsSpliced(src, tgt, x, content);
    NothingMoves(src, tgt, k, content, b, x.end, pat, c);
  }

  lemma FoundApart(s: string, a: string, b: string, i: nat, j: nat)
    requires IsMarker(a) && IsMarker(b) && Differ(a, b) && IndexOf(s, a) == Some(i) && IndexOf(s, b) == Some(j)
    ensures i + |a| <= j || j + |b| <= i
  {
    FirstAtIsIndexOf(s, a, i);
    FirstAtIsIndexOf(s, b, j);
    NoOverlap(s, a, b, i, j);
  }

  /** If the second splice of a generation undoes the first, neither changed anything; `a`
      and `c` are where the regions start. */
  lemma UndoneAt(doc: string, h: string, x: Tag, y: Tag, cli: string, mcp: string, a: nat, c: nat)
    requires Pair(x, y) && !Includes(cli, y.start) && !Includes(mcp, x.start)
    requires Splice(doc, x, cli) == Some(h) && Splice(h, y, mcp) == Some(doc)
    requires IndexOf(doc, x.start) == Some(a) && IndexOf(h, y.start) == Some(c)
    ensures h == doc
  {
    SpliceKeepsFront(doc, h, x, cli, a);
    SpliceKeepsFront(h, doc, y, mcp, c);
    FoundApart(h, x.start, y.start, a, c);
    if a + |x.start| <= c {
      UnmovedMeansSame(doc, h, x, cli, y.start, c);
    } else {
      UnmovedMeansSame(h, doc, y, mcp, x.start, a);
    }
  }

  lemma UndoneMeansSame(doc: string, h: string, x: Tag, y: Tag, cli: string, mcp: string)
    requires Pair(x, y) && Unmarked(cli, x, y) && Unmarked(mcp, x, y)
    requires Splice(doc, x, cli) == Some(h) && Splice(h, y, mcp) == Some(doc)
    ensures h == doc
  {
    UndoneAt(doc, h, x, y, cli, mcp, IndexOf(doc, x.start).value, IndexOf(h, y.start).value);
  }

  /** The drift check accepts a document exactly if each of its two regions, found by its first
      markers, holds exactly its framed table. */
  lemma CheckPassesIff(doc: string, cli: string, mcp: string)
    requires Unmarked(cli, CLI, MCP) && Unmarked(mcp, CLI, MCP)
    ensures CheckPasses(doc, cli, mcp) <==> Holds(doc, CLI, cli) && Holds(doc, MCP, mcp)
  {
    TablesArePair();
    SpliceFixed(doc, CLI, cli);
    SpliceFixed(doc, MCP, mcp);
    if CheckPasses(doc, cli, mcp) {
      UndoneMeansSame(doc, Splice(doc, CLI, cli).value, CLI, MCP, cli, mcp);
    }
  }

  // ---------------------------------------------------------------- exactly when generation is idempotent

  lemma NoIndex(s: string, pat: string)
    ensures IndexOf(s, pat).None? <==> forall j :: !At(s, pat, j)
  {
    if IndexOf(s, pat).Some? {
      FirstAtIsIndexOf(s, pat, IndexOf(s, pat).value);
    } else {
      forall j | At(s, pat, j)
        ensures false
      {
        IndexFromFinds(s, pat, 0, j);
      }
    }
  }

  function Shifted(i: Option<nat>, offset: nat): Option<nat> {
    if i.Some? then Some(i.value + offset) else None
  }

  /** Searching a document around framed text that does not hold the pattern. */
  lemma IndexBeside(p: string, content: string, q: string, pat: string)
    requires '\n' !in pat && pat != [] && !Includes(content, pat)
    ensures IndexOf(p + Framed(content) + q, pat)
            == if IndexOf(p, pat).Some? then IndexOf(p, pat) else Shifted(IndexOf(q, pat), |p + Framed(content)|)
  {
    var doc, n := p + Framed(content) + q, |p + Framed(content)|;
    NoIndex(p, pat);
    NoIndex(q, pat);
    NoIndex(doc, pat);
    assert doc == p + (Framed(content) + q);
    forall j: nat
      ensures At(doc, pat, j) <==> (j + |pat| <= |p| && At(p, pat, j)) || (n <= j && At(q, pat, j - n))
    {
      if j + |pat| <= |p| {
        AtInPrefix(p, Framed(content) + q, pat, j);
      } else if n <= j {
        AtInSuffix(p + Framed(content), q, pat, j);
      } else if At(doc, pat, j) {
        FrameIsOpaque(p, content, q, pat, j);
      }
    }
    if IndexOf(p, pat).Some? {
      FirstAtIsIndexOf(p, pat, IndexOf(p, pat).value);
      FirstAtIsIndexOf(doc, pat, IndexOf(p, pat).value);
    } else if IndexOf(q, pat).Some? {
      FirstAtIsIndexOf(q, pat, IndexOf(q, pat).value);
      FirstAtIsIndexOf(doc, pat, IndexOf(q, pat).value + n);
    }
  }

  /** The region of `x` lies wholly in front of the text, or wholly behind it, and is right. */
  predicate HoldsBeside(p: string, q: string, x: Tag, content: string) {
    || Holds(p, x, content)
    || (IndexOf(p, x.start).None? && IndexOf(p, x.end).None? && Holds(q, x, content))
  }

  lemma NotInFrame(content: string, pat: string, j: nat)
    requires '\n' !in pat && pat != [] && !Includes(content, pat)
    ensures !At(Framed(content), pat, j)
  {
    if At(Framed(content), pat, j) {
      assert "" + Framed(content) + "" == Framed(content);
      FrameIsOpaque("", content, "", pat, j);
    }
  }

  /** A region that holds a table cannot reach over another region's start marker. */
  lemma NoReachOver(doc: string, x: Tag, content: string, pat: string, i: nat)
    requires IsMarker(pat) && !Includes(content, pat) && At(doc, pat, i) && Holds(doc, x, content)
    requires IndexOf(doc, x.start).value + |x.start| <= i
    ensures IndexOf(doc, x.end).value < i + |pat|
  {
    var k, e := IndexOf(doc, x.start).value + |x.start|, IndexOf(doc, x.end).value;
    if i + |pat| <= e {
      NotInFrame(content, pat, i - k);
    }
  }

  /** The region is found wholly in front. */
  lemma HoldsInFront(p: string, q: string, x: Tag, cli: string, mcp: string)
    requires Markers(x) && !Includes(mcp, x.start) && !Includes(mcp, x.end)
    requires IndexOf(p, x.start).Some? && IndexOf(p, x.end).Some?
    ensures Holds(p + Framed(mcp) + q, x, cli) <==> Holds(p, x, cli)
  {
    IndexBeside(p, mcp, q, x.start);
    IndexBeside(p, mcp, q, x.end);
    var i, j := IndexOf(p, x.start).value + |x.start|, IndexOf(p, x.end).value;
    if i <= j {
      assert (p + Framed(mcp) + q)[i..j] == p[i..j];
    }
  }

  /** The region is found wholly behind. */
  lemma HoldsBehind(p: string, q: string, x: Tag, cli: string, mcp: string)
    requires Markers(x) && !Includes(mcp, x.start) && !Includes(mcp, x.end)
    requires IndexOf(p, x.start).None? && IndexOf(p, x.end).None?
    ensures Holds(p + Framed(mcp) + q, x, cli) <==> Holds(q, x, cli)
  {
    IndexBeside(p, mcp, q, x.start);
    IndexBeside(p, mcp, q, x.end);
    var n := |p + Framed(mcp)|;
    if IndexOf(q, x.start).Some? && IndexOf(q, x.end).Some? {
      var i, j := IndexOf(q, x.start).value + |x.start|, IndexOf(q, x.end).value;
      if i <= j {
        assert (p + Framed(mcp) + q)[n + i..n + j] == q[i..j];
      }
    }
  }

  /** Only one of the markers is found in front: the region is reversed, or reaches over. */
  lemma HoldsAcross(p: string, q: string, x: Tag, y: Tag, cli: string, mcp: string)
    requires Pair(x, y) && Unmarked(cli, x, y) && Unmarked(mcp, x, y)
    requires |y.start| <= |p| && At(p, y.start, |p| - |y.start|)
    requires IndexOf(p, x.start).Some? != IndexOf(p, x.end).Some?
    ensures !Holds(p + Framed(mcp) + q, x, cli)
  {
    IndexBeside(p, mcp, q, x.start);
    IndexBeside(p, mcp, q, x.end);
    var s, i := IndexOf(p, x.start), |p| - |y.start|;
    if s.Some? && Holds(p + Framed(mcp) + q, x, cli) {
      StartBeforeEnd(p, x, y, s.value, i);
      assert p + Framed(mcp) + q == p + (Framed(mcp) + q);
      AtInPrefix(p, Framed(mcp) + q, y.start, i);
      NoReachOver(p + Framed(mcp) + q, x, cli, y.start, i);
    }
  }

  lemma StartBeforeEnd(p: string, x: Tag, y: Tag, s: nat, i: nat)
    requires Pair(x, y) && IndexOf(p, x.start) == Some(s) && At(p, y.start, i) && i + |y.start| == |p|
    ensures s + |x.start| <= i
  {
    FirstAtIsIndexOf(p, x.start, s);
    NoOverlap(p, x.start, y.start, s, i);
  }

  lemma HoldsAround(p: string, q: string, x: Tag, y: Tag, cli: string, mcp: string)
    requires Pair(x, y) && Unmarked(cli, x, y) && Unmarked(mcp, x, y)
    requires |y.start| <= |p| && At(p, y.start, |p| - |y.start|)
    ensures Holds(p + Framed(mcp) + q, x, cli) <==> HoldsBeside(p, q, x, cli)
  {
    if IndexOf(p, x.start).Some? && IndexOf(p, x.end).Some? {
      HoldsInFront(p, q, x, cli, mcp);
    } else if IndexOf(p, x.start).None? && IndexOf(p, x.end).None? {
      HoldsBehind(p, q, x, cli, mcp);
    } else {
      HoldsAcross(p, q, x, y, cli, mcp);
    }
  }

  /** After the first splice: the other region is in order, and the spliced one lies wholly on
      one side of it, with its table. */
  predicate Settled(first: string, x: Tag, y: Tag, content: string)
    requires IndexOf(first, y.start).Some? && IndexOf(first, y.end).Some?
  {
    var c, d := IndexOf(first, y.start).value, IndexOf(first, y.end).value;
    c < d && HoldsBeside(first[..c + |y.start|], first[d..], x, content)
  }

  /** After the second splice, its own region is right exactly if its markers were in order. */
  lemma SecondIsRight(first: string, generated: string, y: Tag, content: string)
    requires Markers(y) && Apart(y) && !Includes(content, y.end) && Splice(first, y, content) == Some(generated)
    ensures Holds(generated, y, content) <==> IndexOf(first, y.start).value < IndexOf(first, y.end).value
  {
    SpliceStable(first, y, content);
    SpliceFixed(generated, y, content);
  }

  /** The parts of a spliced text; the front one ends with the start marker. */
  lemma SplicedParts(first: string, generated: string, y: Tag, content: string, c: nat, d: nat)
    requires IndexOf(first, y.start) == Some(c) && IndexOf(first, y.end) == Some(d)
    requires Splice(first, y, content) == Some(generated)
    ensures c + |y.start| <= |first| && d <= |first|
    ensures generated == first[..c + |y.start|] + Framed(content) + first[d..]
    ensures At(first[..c + |y.start|], y.start, c)
  {
    FirstAtIsIndexOf(first, y.start, c);
    FirstAtIsIndexOf(first, y.end, d);
    AtShared(first, first[..c + |y.start|], c + |y.start|, y.start, c);
  }

  /** And the other one exactly if it lay wholly on one side. */
  lemma FirstIsRight(first: string, generated: string, x: Tag, y: Tag, cli: string, mcp: string, c: nat, d: nat)
    requires Pair(x, y) && Unmarked(cli, x, y) && Unmarked(mcp, x, y) && Splice(first, y, mcp) == Some(generated)
    requires IndexOf(first, y.start) == Some(c) && IndexOf(first, y.end) == Some(d)
    ensures c + |y.start| <= |first| && d <= |first|
    ensures Holds(generated, x, cli) <==> HoldsBeside(first[..c + |y.start|], first[d..], x, cli)
  {
    SplicedParts(first, generated, y, mcp, c, d);
    HoldsAround(first[..c + |y.start|], first[d..], x, y, cli, mcp);
  }

  lemma BothRightIff(first: string, generated: string, x: Tag, y: Tag, cli: string, mcp: string)
    requires Pair(x, y) && Unmarked(cli, x, y) && Unmarked(mcp, x, y) && Splice(first, y, mcp) == Some(generated)
    ensures Holds(generated, x, cli) && Holds(generated, y, mcp) <==> Settled(first, x, y, cli)
  {
    SecondIsRight(first, generated, y, mcp);
    FirstIsRight(first, generated, x, y, cli, mcp, IndexOf(first, y.start).value, IndexOf(first, y.end).value);
  }

  /** Whatever the document: a generation that succeeds can be repeated without change exactly
      if, when its second splice starts, the MCP markers are in order and the CLI table stands
      wholly in front of the MCP region or wholly behind it. */
  lemma GenerateIdempotentIff(skill: string, cli: string, mcp: string)
    requires Unmarked(cli, CLI, MCP) && Unmarked(mcp, CLI, MCP)
    requires Generate(skill, cli, mcp).Some?
    ensures var generated := Generate(skill, cli, mcp).value;
            Generate(generated, cli, mcp) == Some(generated)
            <==> Settled(Splice(skill, CLI, cli).value, CLI, MCP, cli)
  {
    var first, generated := Splice(skill, CLI, cli).value, Generate(skill, cli, mcp).value;
    TablesArePair();
    CheckPassesIff(generated, cli, mcp);
    BothRightIff(first, generated, CLI, MCP, cli, mcp);
  }
}
