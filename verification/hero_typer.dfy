/** The SQL typewriter of HeroSection in src/App.tsx. State is
    `(lineIndex, charIndex, sqlText)`; each firing of the 35 ms timeout is one
    `Tick`. No timeout is scheduled once `lineIndex` has passed the last line, so
    a tick in that state changes nothing. The lines are a parameter; `SqlLines`
    holds the two the page types. */
module HeroTyper {
  import opened Seqs

  const SqlLines: seq<string> := ["SELECT insight FROM brain", "WHERE passion = 'data';"]

  datatype Typer = Typer(lineIndex: nat, charIndex: nat, text: string)

  function Init(): Typer
  {
    Typer(0, 0, "")
  }

  /** The lines separated by '\n'. */
  function Join(lines: seq<string>): string
    decreases |lines|
  {
    if |lines| == 0 then ""
    else if |lines| == 1 then lines[0]
    else Join(lines[..|lines| - 1]) + "\n" + lines[|lines| - 1]
  }

  predicate NonEmptyLines(lines: seq<string>)
  {
    forall i :: 0 <= i < |lines| ==> |lines[i]| > 0
  }

  /** The effect schedules a timeout only while a line is left to type. */
  predicate Scheduled(lines: seq<string>, s: Typer)
  {
    s.lineIndex < |lines|
  }

  function Tick(lines: seq<string>, s: Typer): Typer
  {
    if !Scheduled(lines, s) then s
    else
      var line := lines[s.lineIndex];
      var text :=
        if s.lineIndex == 0 then Slice(line, 0, s.charIndex + 1)
        else s.text + (if s.charIndex == 0 then "\n" else "") + Slice(line, s.charIndex, s.charIndex + 1);
      if s.charIndex + 1 == |line| then Typer(s.lineIndex + 1, 0, text)
      else Typer(s.lineIndex, s.charIndex + 1, text)
  }

  function Run(lines: seq<string>, s: Typer, k: nat): Typer
    decreases k
  {
    if k == 0 then s else Run(lines, Tick(lines, s), k - 1)
  }

  predicate Position(lines: seq<string>, li: nat, ci: nat)
  {
    && li <= |lines|
    && (li < |lines| ==> ci < |lines[li]|)
    && (li == |lines| ==> ci == 0)
  }

  /** The text that should be on screen at a position: the finished lines
      joined, then (after a '\n' when not on the first line) the typed part of
      the current line. */
  function Shown(lines: seq<string>, li: nat, ci: nat): string
    requires Position(lines, li, ci)
  {
    if li == 0 then (if |lines| == 0 then "" else lines[0][..ci])
    else Join(lines[..li]) + (if ci == 0 then "" else "\n" + lines[li][..ci])
  }

  predicate Good(lines: seq<string>, s: Typer)
  {
    Position(lines, s.lineIndex, s.charIndex) && s.text == Shown(lines, s.lineIndex, s.charIndex)
  }

  /** The characters of the lines from index i on (separators not counted). */
  function SumFrom(lines: seq<string>, i: nat): nat
    decreases |lines| - i
  {
    if i >= |lines| then 0 else |lines[i]| + SumFrom(lines, i + 1)
  }

  /** Characters still to be typed. */
  function Remaining(lines: seq<string>, s: Typer): int
  {
    SumFrom(lines, s.lineIndex) - s.charIndex
  }

  lemma JoinStep(lines: seq<string>, k: nat)
    requires 1 <= k < |lines|
    ensures Join(lines[..k + 1]) == Join(lines[..k]) + "\n" + lines[k]
  {
    assert lines[..k + 1][..k] == lines[..k];
  }

  lemma {:induction false} JoinPrefix(lines: seq<string>, k: nat)
    requires 1 <= k <= |lines|
    ensures Join(lines[..k]) <= Join(lines)
    decreases |lines| - k
  {
    if k == |lines| {
      assert lines[..k] == lines;
    } else {
      JoinStep(lines, k);
      JoinPrefix(lines, k + 1);
    }
  }

  lemma InitGood(lines: seq<string>)
    requires NonEmptyLines(lines)
    ensures Good(lines, Init())
  {
  }

  /** Under the invariant a tick appends to the text: one character of the
      current line, preceded by '\n' on the first tick of every line after the
      first, and the typed text stays what `Shown` says. */
  lemma {:induction false} TickAppendsOne(lines: seq<string>, s: Typer)
    requires NonEmptyLines(lines) && Good(lines, s) && Scheduled(lines, s)
    ensures var r := Tick(lines, s);
      && Good(lines, r)
      && r.text == s.text + (if s.lineIndex > 0 && s.charIndex == 0 then "\n" else "")
                         + [lines[s.lineIndex][s.charIndex]]
  {
    if s.lineIndex == 0 {
      TickOnFirstLine(lines, s);
    } else {
      TickOnLaterLine(lines, s);
    }
  }

  lemma TickOnFirstLine(lines: seq<string>, s: Typer)
    requires NonEmptyLines(lines) && Good(lines, s) && Scheduled(lines, s) && s.lineIndex == 0
    ensures Good(lines, Tick(lines, s))
    ensures Tick(lines, s).text == s.text + [lines[0][s.charIndex]]
  {
    var ci := s.charIndex;
    var line := lines[0];
    assert line[..ci + 1] == line[..ci] + [line[ci]];
    assert Slice(line, 0, ci + 1) == line[..ci + 1];
    if ci + 1 == |line| {
      assert lines[..1] == [lines[0]];
      assert line[..ci + 1] == line;
    }
  }

  lemma TickOnLaterLine(lines: seq<string>, s: Typer)
    requires NonEmptyLines(lines) && Good(lines, s) && Scheduled(lines, s) && s.lineIndex > 0
    ensures Good(lines, Tick(lines, s))
    ensures Tick(lines, s).text == s.text + (if s.charIndex == 0 then "\n" else "") + [lines[s.lineIndex][s.charIndex]]
  {
    var li, ci := s.lineIndex, s.charIndex;
    var line := lines[li];
    var t := Tick(lines, s);
    assert Slice(line, ci, ci + 1) == [line[ci]];
    assert t.text == s.text + (if ci == 0 then "\n" else "") + [line[ci]];
    LaterLineText(lines, li, ci);
    if ci + 1 == |line| {
      assert t.lineIndex == li + 1 && t.charIndex == 0;
      LineDone(lines, li);
    } else {
      assert t.lineIndex == li && t.charIndex == ci + 1;
      assert Shown(lines, li, ci + 1) == Join(lines[..li]) + "\n" + line[..ci + 1];
    }
  }

  /** Finishing a line after the first shows the lines so far joined. */
  lemma LineDone(lines: seq<string>, li: nat)
    requires NonEmptyLines(lines) && 0 < li < |lines|
    ensures Shown(lines, li + 1, 0) == Join(lines[..li]) + "\n" + lines[li][..|lines[li]|]
  {
    JoinStep(lines, li);
    assert lines[li][..|lines[li]|] == lines[li];
  }

  /** On a line after the first, the shown text grows by one character of that
      line, after the '\n' on its first tick. */
  lemma LaterLineText(lines: seq<string>, li: nat, ci: nat)
    requires 0 < li < |lines| && ci < |lines[li]|
    ensures Shown(lines, li, ci) + (if ci == 0 then "\n" else "") + [lines[li][ci]]
      == Join(lines[..li]) + "\n" + lines[li][..ci + 1]
  {
    assert lines[li][..ci + 1] == lines[li][..ci] + [lines[li][ci]];
  }

  /** What the hero shows is always a prefix of the lines joined by '\n'. */
  lemma ShownIsPrefix(lines: seq<string>, s: Typer)
    requires Good(lines, s)
    ensures s.text <= Join(lines)
  {
    var li, ci := s.lineIndex, s.charIndex;
    if li == 0 {
      if |lines| > 0 {
        FirstLinePrefix(lines, ci);
      }
    } else if li == |lines| {
      assert lines[..li] == lines;
    } else {
      LaterLinePrefix(lines, li, ci);
    }
  }

  lemma FirstLinePrefix(lines: seq<string>, ci: nat)
    requires 0 < |lines| && ci <= |lines[0]|
    ensures lines[0][..ci] <= Join(lines)
  {
    assert lines[..1] == [lines[0]];
    JoinPrefix(lines, 1);
  }

  lemma LaterLinePrefix(lines: seq<string>, li: nat, ci: nat)
    requires 0 < li < |lines| && ci <= |lines[li]|
    ensures Join(lines[..li]) + (if ci == 0 then "" else "\n" + lines[li][..ci]) <= Join(lines)
  {
    var done := Join(lines[..li]);
    JoinStep(lines, li);
    JoinPrefix(lines, li + 1);
    assert done + "\n" + lines[li] <= Join(lines);
    assert done + "\n" + lines[li][..ci] <= done + "\n" + lines[li];
  }

  /** Every tick, scheduled or not, keeps the invariant. */
  lemma TickKeepsGood(lines: seq<string>, s: Typer)
    requires NonEmptyLines(lines) && Good(lines, s)
    ensures Good(lines, Tick(lines, s))
    ensures !Scheduled(lines, s) ==> Tick(lines, s) == s
  {
    if Scheduled(lines, s) {
      TickAppendsOne(lines, s);
    }
  }

  lemma {:induction false} AlwaysGood(lines: seq<string>, s: Typer, k: nat)
    requires NonEmptyLines(lines) && Good(lines, s)
    ensures Good(lines, Run(lines, s, k))
    decreases k
  {
    if k > 0 {
      TickKeepsGood(lines, s);
      AlwaysGood(lines, Tick(lines, s), k - 1);
    }
  }

  /** Whatever number of ticks has fired, the hero text is a prefix of the
      joined lines. */
  lemma AlwaysPrefix(lines: seq<string>, s: Typer, k: nat)
    requires NonEmptyLines(lines) && Good(lines, s)
    ensures Run(lines, s, k).text <= Join(lines)
  {
    AlwaysGood(lines, s, k);
    ShownIsPrefix(lines, Run(lines, s, k));
  }

  /** Each scheduled tick types exactly one character of the lines and
      leaves the typer at a valid position. */
  lemma TickConsumesOne(lines: seq<string>, s: Typer)
    requires NonEmptyLines(lines) && Position(lines, s.lineIndex, s.charIndex) && Scheduled(lines, s)
    ensures Position(lines, Tick(lines, s).lineIndex, Tick(lines, s).charIndex)
    ensures Remaining(lines, Tick(lines, s)) == Remaining(lines, s) - 1
  {
  }

  /** At a valid position the count of characters left is never negative. */
  lemma RemainingNonNegative(lines: seq<string>, s: Typer)
    requires Position(lines, s.lineIndex, s.charIndex)
    ensures Remaining(lines, s) >= 0
  {
  }

  /** After exactly as many ticks as there are characters left, the typer
      has left the last line. */
  lemma {:induction false} RunReachesEnd(lines: seq<string>, s: Typer, k: nat)
    requires NonEmptyLines(lines) && Position(lines, s.lineIndex, s.charIndex) && k == Remaining(lines, s)
    ensures !Scheduled(lines, Run(lines, s, k))
    decreases k
  {
    if Scheduled(lines, s) {
      var t := Tick(lines, s);
      TickConsumesOne(lines, s);
      RunReachesEnd(lines, t, k - 1);
      assert Run(lines, s, k) == Run(lines, t, k - 1);
    } else {
      assert k == 0;
    }
  }

  /** With non-empty lines, after exactly as many ticks as there are
      characters left, typing has stopped and the whole joined text is shown;
      later ticks change nothing. */
  lemma RunsToCompletion(lines: seq<string>, s: Typer)
    requires NonEmptyLines(lines) && Good(lines, s)
    ensures Remaining(lines, s) >= 0
    ensures var r := Run(lines, s, Remaining(lines, s));
      && !Scheduled(lines, r)
      && r.text == Join(lines)
      && Tick(lines, r) == r
  {
    RemainingNonNegative(lines, s);
    RunReachesEnd(lines, s, Remaining(lines, s));
    AlwaysGood(lines, s, Remaining(lines, s));
    TypingFinished(lines, Run(lines, s, Remaining(lines, s)));
  }

  /** Once no tick is scheduled nothing is left and the whole text is shown. */
  lemma TypingFinished(lines: seq<string>, s: Typer)
    requires Good(lines, s) && !Scheduled(lines, s)
    ensures Remaining(lines, s) == 0
    ensures s.text == Join(lines)
  {
    assert lines[..|lines|] == lines;
  }

  lemma SqlLinesJoined()
    ensures Join(SqlLines) == "SELECT insight FROM brain\nWHERE passion = 'data';"
  {
    assert SqlLines[..1] == [SqlLines[0]];
  }

  /** From the initial state the page's two lines are typed in full, and the
      typer then stops. */
  lemma HeroTypesBothLines(n: nat)
    requires n == SumFrom(SqlLines, 0)
    ensures var r := Run(SqlLines, Init(), n);
      r.text == "SELECT insight FROM brain\nWHERE passion = 'data';" && !Scheduled(SqlLines, r)
  {
    assert NonEmptyLines(SqlLines);
    RunsToCompletion(SqlLines, Init());
    SqlLinesJoined();
  }

  /** An empty line is never finished: the end-of-line test `charIndex + 1 ===
      length` cannot hold, so `lineIndex` never advances past it. */
  lemma {:induction false} EmptyLineNeverFinishes(lines: seq<string>, s: Typer, k: nat)
    requires s.lineIndex < |lines| && lines[s.lineIndex] == ""
    ensures Run(lines, s, k).lineIndex == s.lineIndex
    decreases k
  {
    if k > 0 {
      EmptyLineNeverFinishes(lines, Tick(lines, s), k - 1);
    }
  }
}
