/** The drill's framer of a child's standard output: chunks in, complete lines handled. */
module LineFramer {
  import opened Text

  const BOUNDARY := "@@JINN-DRILL-BOUNDARY"
  const OBSERVATION := "@@JINN-DRILL-OBSERVATION"

  /** A parsed observation. */
  datatype Observation = Observation(json: string)

  datatype Outcome = Killed | Observed(observation: Observation)

  /** A framer that is reading, or whose handler threw while parsing a line. */
  datatype State = Reading(buffer: string, outcome: Option<Outcome>, kills: nat) | Threw(line: string)

  /** What a complete line makes the handler do. */
  datatype Effect = Ignore | Kill | Observe(observation: Observation) | Throw

  type Reader = string -> Effect

  predicate StartsWith(s: string, prefix: string) {
    prefix <= s
  }

  /** `line.slice(n)` */
  function From(line: string, n: nat): string {
    if n <= |line| then line[n..] else ""
  }

  /** The drill's reading of a line; `parse` is JSON.parse, with None for a throw. */
  function Effects(killAtBoundary: bool, parse: string -> Option<Observation>, line: string): Effect {
    if StartsWith(line, BOUNDARY) then if killAtBoundary then Kill else Ignore
    else if StartsWith(line, OBSERVATION) then
      var parsed := parse(From(line, |OBSERVATION| + 1));
      if parsed.None? then Throw else Observe(parsed.value)
    else Ignore
  }

  function DrillReader(killAtBoundary: bool, parse: string -> Option<Observation>): Reader {
    line => Effects(killAtBoundary, parse, line)
  }

  /** The handling of one line, the buffer being already cut. */
  function Handle(read: Reader, st: State, line: string): State
    requires st.Reading?
  {
    match read(line)
    case Ignore => st
    case Kill => st.(outcome := Some(Killed), kills := st.kills + 1)
    case Observe(o) => st.(outcome := Some(Observed(o)))
    case Throw => Threw(line)
  }

  /** Position of the first newline, or the length. */
  function FirstNewline(s: string): (n: nat)
    ensures n <= |s|
  {
    if s == "" || s[0] == '\n' then 0 else 1 + FirstNewline(s[1..])
  }

  /** `buffer.indexOf('\n')`: the first newline, if there is one. */
  lemma {:induction false} FirstNewlineIsFirst(s: string)
    ensures forall i :: 0 <= i < FirstNewline(s) ==> s[i] != '\n'
    ensures FirstNewline(s) < |s| ==> s[FirstNewline(s)] == '\n'
  {
    if s != "" && s[0] != '\n' {
      FirstNewlineIsFirst(s[1..]);
    }
  }

  // ---------------------------------------------------------------- the text as lines

  /** The newline-terminated lines of a text, and what follows the last newline. */
  function Lines(text: string): seq<string>
    decreases |text|
  {
    var n := FirstNewline(text);
    if n == |text| then [] else [text[..n]] + Lines(text[n + 1..])
  }

  function Leftover(text: string): string
    decreases |text|
  {
    var n := FirstNewline(text);
    if n == |text| then text else Leftover(text[n + 1..])
  }

  function Unlines(lines: seq<string>): string {
    if lines == [] then "" else lines[0] + "\n" + Unlines(lines[1..])
  }

  /** Lines and leftover are the text: nothing is lost. */
  lemma {:induction false} LinesAreTheText(text: string)
    ensures Unlines(Lines(text)) + Leftover(text) == text
    decreases |text|
  {
    var n := FirstNewline(text);
    FirstNewlineIsFirst(text);
    if n == |text| {
      assert Unlines(Lines(text)) == "";
    } else {
      var rest := text[n + 1..];
      LinesAreTheText(rest);
      LinesFront(text, n);
      LeftoverFront(text, n);
      UnlinesFront(text[..n], Lines(rest));
      Reassemble(text, n, Unlines(Lines(rest)), Leftover(rest));
    }
  }

  lemma Reassemble(text: string, n: nat, middle: string, end: string)
    requires n < |text| && text[n] == '\n' && middle + end == text[n + 1..]
    ensures text[..n] + "\n" + middle + end == text
  {
    assert text[..n] + "\n" + middle + end == text[..n] + "\n" + (middle + end);
  }

  lemma UnlinesFront(line: string, lines: seq<string>)
    ensures Unlines([line] + lines) == line + "\n" + Unlines(lines)
  {
    assert ([line] + lines)[1..] == lines;
  }

  /** A line ends at its first newline: no line, and not the leftover, holds one. */
  lemma {:induction false} NoNewlineInside(text: string)
    ensures '\n' !in Leftover(text)
    ensures forall i :: 0 <= i < |Lines(text)| ==> '\n' !in Lines(text)[i]
    decreases |text|
  {
    var n := FirstNewline(text);
    FirstNewlineIsFirst(text);
    if n < |text| {
      NoNewlineInside(text[n + 1..]);
      LinesFront(text, n);
      LeftoverFront(text, n);
    }
  }

  /** The lines of a text, once unfolded. */
  lemma LinesFront(text: string, n: nat)
    requires n == FirstNewline(text) < |text|
    ensures Lines(text) == [text[..n]] + Lines(text[n + 1..])
  {
  }

  lemma LeftoverFront(text: string, n: nat)
    requires n == FirstNewline(text) < |text|
    ensures Leftover(text) == Leftover(text[n + 1..])
  {
  }

  lemma FirstAndRest(first: string, rest: seq<string>)
    ensures ([first] + rest)[0] == first && ([first] + rest)[1..] == rest
  {
  }

  /** The fold the framer computes: line after line, stopping at the first throw. */
  function Fold(read: Reader, st: State, lines: seq<string>): State
    decreases |lines|
  {
    if st.Threw? || lines == [] then st else Fold(read, Handle(read, st, lines[0]), lines[1..])
  }

  /** A state with its buffer replaced, unless the handler threw. */
  function WithBuffer(st: State, buffer: string): State {
    if st.Threw? then st else st.(buffer := buffer)
  }

  /** The framer's state after reading a whole text from its start. */
  function Summary(read: Reader, text: string): State {
    WithBuffer(Fold(read, Reading("", None, 0), Lines(text)), Leftover(text))
  }

  // ---------------------------------------------------------------- the data handler

  /** Handles the complete lines at the front of the buffer. */
  function Drain(read: Reader, st: State): State
    decreases if st.Reading? then 1 + |st.buffer| else 0
  {
    if st.Threw? then st
    else
      var n := FirstNewline(st.buffer);
      if n == |st.buffer| then st
      else Drain(read, Handle(read, st.(buffer := st.buffer[n + 1..]), st.buffer[..n]))
  }

  function Feed(read: Reader, st: State, chunk: string): State {
    if st.Threw? then st else Drain(read, st.(buffer := st.buffer + chunk))
  }

  function FeedAll(read: Reader, st: State, chunks: seq<string>): State {
    if chunks == [] then st else Feed(read, FeedAll(read, st, chunks[..|chunks| - 1]), chunks[|chunks| - 1])
  }

  function Concat(chunks: seq<string>): string {
    if chunks == [] then "" else Concat(chunks[..|chunks| - 1]) + chunks[|chunks| - 1]
  }

  lemma {:induction false} LineEnds(line: string, rest: string)
    requires '\n' !in line
    ensures FirstNewline(line + "\n" + rest) == |line|
  {
    var s := line + "\n" + rest;
    if line != "" {
      LineEnds(line[1..], rest);
      assert s[1..] == line[1..] + "\n" + rest;
    }
  }

  /** One round of draining, with more text waiting behind the first line. */
  lemma DrainOne(read: Reader, st: State, line: string, rest: string)
    requires st.Reading? && st.buffer == line + "\n" + rest && '\n' !in line
    ensures Drain(read, st) == Drain(read, Handle(read, st.(buffer := rest), line))
  {
    var n := FirstNewline(st.buffer);
    LineEnds(line, rest);
    assert n == |line|;
    assert st.buffer[..n] == line && st.buffer[n + 1..] == rest;
  }

  lemma HandleKeepsBuffer(read: Reader, st: State, line: string, buffer: string)
    requires st.Reading?
    ensures var next := Handle(read, st, line);
            Handle(read, st.(buffer := buffer), line) == WithBuffer(next, buffer)
    ensures Handle(read, st, line).Reading? ==> Handle(read, st, line).buffer == st.buffer
  {
  }

  /** Text that arrives after draining may as well have arrived before. */
  lemma {:induction false} DrainLater(read: Reader, st: State, more: string)
    requires st.Reading?
    ensures Feed(read, Drain(read, st), more) == Drain(read, st.(buffer := st.buffer + more))
    decreases |st.buffer|
  {
    var n := FirstNewline(st.buffer);
    FirstNewlineIsFirst(st.buffer);
    if n < |st.buffer| {
      var line, rest := st.buffer[..n], st.buffer[n + 1..];
      assert st.buffer == line + "\n" + rest;
      assert st.buffer + more == line + "\n" + (rest + more);
      DrainOne(read, st, line, rest);
      DrainOne(read, st.(buffer := st.buffer + more), line, rest + more);
      var next := Handle(read, st.(buffer := rest), line);
      HandleKeepsBuffer(read, st.(buffer := rest), line, rest + more);
      if next.Reading? {
        DrainLater(read, next, more);
      }
    }
  }

  lemma FeedTwice(read: Reader, st: State, first: string, second: string)
    requires st.Reading?
    ensures Feed(read, Feed(read, st, first), second) == Feed(read, st, first + second)
  {
    DrainLater(read, st.(buffer := st.buffer + first), second);
    assert st.buffer + first + second == st.buffer + (first + second);
  }

  lemma {:induction false} FeedAllIsFeed(read: Reader, st: State, chunks: seq<string>)
    requires st.Reading? && FirstNewline(st.buffer) == |st.buffer|
    ensures FeedAll(read, st, chunks) == Feed(read, st, Concat(chunks))
  {
    if chunks == [] {
      assert st.buffer + "" == st.buffer;
    } else {
      FeedAllIsFeed(read, st, chunks[..|chunks| - 1]);
      FeedTwice(read, st, Concat(chunks[..|chunks| - 1]), chunks[|chunks| - 1]);
    }
  }

  /** The fold takes the first line of a text, then goes on with the rest. */
  lemma FoldFront(read: Reader, st: State, text: string, n: nat)
    requires st.Reading? && n == FirstNewline(text) < |text|
    ensures Fold(read, st, Lines(text)) == Fold(read, Handle(read, st, text[..n]), Lines(text[n + 1..]))
  {
    LinesFront(text, n);
    FirstAndRest(text[..n], Lines(text[n + 1..]));
  }

  /** Draining a text is folding over its lines. */
  lemma {:induction false} DrainIsFold(read: Reader, st: State)
    requires st.Reading?
    ensures Drain(read, st) == WithBuffer(Fold(read, st.(buffer := ""), Lines(st.buffer)), Leftover(st.buffer))
    decreases |st.buffer|, 1
  {
    var n := FirstNewline(st.buffer);
    if n == |st.buffer| {
      assert Lines(st.buffer) == [];
    } else {
      var rest := st.buffer[n + 1..];
      DrainLine(read, st, st.buffer[..n], rest, Handle(read, st.(buffer := rest), st.buffer[..n]));
    }
  }

  lemma {:induction false} DrainLine(read: Reader, st: State, line: string, rest: string, next: State)
    requires st.Reading? && FirstNewline(st.buffer) == |line| < |st.buffer|
    requires line == st.buffer[..|line|] && rest == st.buffer[|line| + 1..]
    requires next == Handle(read, st.(buffer := rest), line)
    ensures Drain(read, st) == WithBuffer(Fold(read, st.(buffer := ""), Lines(st.buffer)), Leftover(st.buffer))
    decreases |st.buffer|, 0
  {
    HandleKeepsBuffer(read, st.(buffer := rest), line, "");
    LeftoverFront(st.buffer, |line|);
    if next.Reading? {
      DrainIsFold(read, next);
    }
    calc {
      WithBuffer(Fold(read, st.(buffer := ""), Lines(st.buffer)), Leftover(st.buffer));
      { FoldFront(read, st.(buffer := ""), st.buffer, |line|); }
      WithBuffer(Fold(read, WithBuffer(next, ""), Lines(rest)), Leftover(rest));
      Drain(read, next);
      Drain(read, st);
    }
  }

  /** However the child's output is cut into chunks, the framer ends with the same outcome,
      the same number of kills and the same leftover: those of the fold over its lines. */
  lemma ChunkingDoesNotMatter(read: Reader, chunks: seq<string>)
    ensures FeedAll(read, Reading("", None, 0), chunks) == Summary(read, Concat(chunks))
  {
    var start := Reading("", None, 0);
    FeedAllIsFeed(read, start, chunks);
    assert "" + Concat(chunks) == Concat(chunks);
    DrainIsFold(read, start.(buffer := Concat(chunks)));
  }

  // ---------------------------------------------------------------- what the drill makes of the lines

  predicate IsBoundary(line: string) {
    "@@JINN-DRILL-BOUNDARY" <= line
  }

  predicate IsObservation(line: string) {
    !IsBoundary(line) && "@@JINN-DRILL-OBSERVATION" <= line
  }

  /** What stands behind the marker of an observation and one more character. */
  function Payload(line: string): string {
    var n := |"@@JINN-DRILL-OBSERVATION "|;
    if |line| < n then "" else line[n..]
  }

  function Boundaries(lines: seq<string>): nat {
    if lines == [] then 0
    else Boundaries(lines[..|lines| - 1]) + if IsBoundary(lines[|lines| - 1]) then 1 else 0
  }

  /** The outcome that the last deciding line leaves: a kill at a boundary line if kills are
      asked for, the observation of an observation line. */
  function LastOutcome(kill: bool, parse: string -> Option<Observation>, lines: seq<string>): Option<Outcome> {
    if lines == [] then None
    else
      var line := lines[|lines| - 1];
      if kill && IsBoundary(line) then Some(Killed)
      else if IsObservation(line) && parse(Payload(line)).Some? then Some(Observed(parse(Payload(line)).value))
      else LastOutcome(kill, parse, lines[..|lines| - 1])
  }

  predicate Parses(parse: string -> Option<Observation>, line: string) {
    IsObservation(line) ==> parse(Payload(line)).Some?
  }

  lemma {:induction false} FoldBack(read: Reader, st: State, lines: seq<string>, last: string)
    ensures var before := Fold(read, st, lines);
            Fold(read, st, lines + [last]) == if before.Threw? then before else Handle(read, before, last)
    decreases |lines|
  {
    var all := lines + [last];
    if lines == [] {
      assert all == [last] && all[1..] == [];
      if st.Reading? {
        assert Fold(read, Handle(read, st, last), []) == Handle(read, st, last);
      }
    } else if st.Reading? {
      assert all[0] == lines[0] && all[1..] == lines[1..] + [last];
      FoldBack(read, Handle(read, st, lines[0]), lines[1..], last);
    }
  }

  lemma LineDoes(kill: bool, parse: string -> Option<Observation>, st: State, line: string)
    requires st.Reading?
    ensures var next := Handle(DrillReader(kill, parse), st, line);
            && (next.Threw? <==> !Parses(parse, line))
            && (next.Reading? ==>
                  && next.kills == st.kills + (if kill && IsBoundary(line) then 1 else 0)
                  && next.outcome == if kill && IsBoundary(line) then Some(Killed)
                                     else if IsObservation(line) then Some(Observed(parse(Payload(line)).value))
                                     else st.outcome)
  {
  }

  /** The drill's verdict on any lines: it throws exactly if some observation does not parse;
      otherwise its outcome is that of the last deciding line, and it has killed once for each
      boundary line if kills are asked for, and never else. */
  lemma {:induction false} DrillOutcome(kill: bool, parse: string -> Option<Observation>, lines: seq<string>)
    ensures var r := Fold(DrillReader(kill, parse), Reading("", None, 0), lines);
            && (r.Threw? <==> exists i :: 0 <= i < |lines| && !Parses(parse, lines[i]))
            && (r.Reading? ==>
                  && r.outcome == LastOutcome(kill, parse, lines)
                  && r.kills == if kill then Boundaries(lines) else 0)
  {
    if lines != [] {
      var n := |lines| - 1;
      DrillOutcome(kill, parse, lines[..n]);
      FoldBack(DrillReader(kill, parse), Reading("", None, 0), lines[..n], lines[n]);
      assert lines == lines[..n] + [lines[n]];
      assert forall i :: 0 <= i < n ==> lines[..n][i] == lines[i];
      var before := Fold(DrillReader(kill, parse), Reading("", None, 0), lines[..n]);
      if before.Reading? {
        LineDoes(kill, parse, before, lines[n]);
      }
    }
  }

  /** The closed-over variables of the handler. */
  class Framer {
    const killAtBoundary: bool
    const parse: string -> Option<Observation>
    var buffer: string
    var outcome: Option<Outcome>
    var kills: nat
    var threw: Option<string>

    ghost function Value(): State
      reads this
    {
      if threw.Some? then Threw(threw.value) else Reading(buffer, outcome, kills)
    }

    constructor (killAtBoundary: bool, parse: string -> Option<Observation>)
      ensures this.killAtBoundary == killAtBoundary && this.parse == parse
      ensures Value() == Reading("", None, 0)
    {
      this.killAtBoundary, this.parse := killAtBoundary, parse;
      buffer, outcome, kills, threw := "", None, 0, None;
    }

    /** The branches taken on one line. */
    method OnLine(line: string)
      requires threw.None?
      modifies this
      ensures threw.None? ==> buffer == old(buffer)
      ensures Value() == Handle(DrillReader(killAtBoundary, parse), old(Value()), line)
    {
      if StartsWith(line, BOUNDARY) {
        if !killAtBoundary {
          return;
        }
        outcome := Some(Killed);
        kills := kills + 1;
        return;
      }
      if StartsWith(line, OBSERVATION) {
        var parsed := parse(From(line, |OBSERVATION| + 1));
        if parsed.None? {
          threw := Some(line);
          return;
        }
        outcome := Some(Observed(parsed.value));
      }
    }

    /** The `data` handler; a handler that threw is not called again. */
    method OnData(chunk: string)
      requires threw.None?
      modifies this
      ensures Value() == Feed(DrillReader(killAtBoundary, parse), old(Value()), chunk)
    {
      ghost var read := DrillReader(killAtBoundary, parse);
      buffer := buffer + chunk;
      ghost var start := Value();
      while threw.None?
        invariant Drain(read, Value()) == Drain(read, start)
        decreases threw.None?, |buffer|
      {
        var newline := FirstNewline(buffer);
        if newline == |buffer| {
          break;
        }
        var line := buffer[..newline];
        buffer := buffer[newline + 1..];
        OnLine(line);
      }
    }
  }
}
