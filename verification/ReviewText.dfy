/** Applying hunks to a text, and rebuilding an added file.
    Models crates/cuartel-core/src/review.rs, lines 166 to 251. */
module ReviewText {
  import opened Wrappers
  import opened Text
  import opened EditScript
  import opened Overlay
  import opened Review
  import opened ReviewPatch
  import opened LineText
  import opened LineCuts
  import opened HunkSpacing

  /** The hunks of the diff of two texts. */
  function HunksOfTexts(ops: seq<Op>, before: string, edited: string): seq<DiffHunk> {
    DiffHunks(ops, DiffedLines(before), DiffedLines(edited))
  }

  ghost predicate IsScript(ops: seq<Op>, before: string, edited: string) {
    ValidScript(ops, CutText(before), CutText(edited))
  }

  function Applied(original: string, hunks: seq<DiffHunk>, accepted: set<nat>): string {
    Finish(Splice(LinesIn(original), hunks, accepted, 0, 0), original)
  }

  /** `apply_hunks`. */
  method ApplyHunks(original: string, hunks: seq<DiffHunk>, accepted: set<nat>) returns (result: string)
    requires NoPanic(hunks, 0, |LinesIn(original)|)
    ensures result == Applied(original, hunks, accepted)
  {
    var out := ApplyLines(LinesIn(original), hunks, accepted);
    result := Join(out, '\n');
    if result != [] && !EndsLF(result) && (original == [] || EndsLF(original)) {
      result := result + ['\n'];
    }
  }

  lemma {:induction false} LineScript(ops: seq<Op>, before: string, edited: string)
    requires IsScript(ops, before, edited)
    ensures ValidScript(ops, DiffedLines(before), DiffedLines(edited))
  {
    var a, b := CutText(before), CutText(edited);
    StrippedLeads(ops, a, b, 0, 0, |a|, |b|);
  }

  // ---------- when apply_hunks panics ----------

  /** Applied to any text, the hunks of a diff make `apply_hunks` panic if and only if the
      last of them starts past the last line of that text. */
  lemma {:induction false} HunksFitExactly(ops: seq<Op>, before: string, edited: string, original: string)
    requires IsScript(ops, before, edited)
    ensures var hunks := HunksOfTexts(ops, before, edited);
      NoPanic(hunks, 0, |LinesIn(original)|) <==> LastFits(hunks, |LinesIn(original)|)
  {
    LineScript(ops, before, edited);
    DiffHunksFit(ops, DiffedLines(before), DiffedLines(edited), |LinesIn(original)|);
  }

  /** On the very text that was diffed they do not, if no carriage return stands alone
      before its end. */
  lemma {:induction false} HunksOfTextsNoPanic(ops: seq<Op>, before: string, edited: string)
    requires IsScript(ops, before, edited) && NoInnerCR(before)
    ensures NoPanic(HunksOfTexts(ops, before, edited), 0, |LinesIn(before)|)
  {
    LineScript(ops, before, edited);
    PlainLines(before);
    DiffHunksWellCut(ops, LinesIn(before), DiffedLines(edited));
    WellCutNoPanic(HunksOfTexts(ops, before, edited), 0, 0, LinesIn(before), DiffedLines(edited));
  }

  function Returns(n: nat): string { seq(n, i => '\r') }

  /** `n` lines that end in a carriage return each, and one more.  To `str::lines` they are
      one line. */
  function ReturnsThen(n: nat, c: char): string { Returns(n) + [c] }

  function ReturnLines(n: nat, c: char): Lines { seq(n, i => "\r") + [[c]] }

  lemma {:induction false} CutReturns(n: nat, c: char)
    requires c !in {'\r', '\n'}
    ensures CutText(ReturnsThen(n, c)) == ReturnLines(n, c)
  {
    var s := ReturnsThen(n, c);
    if n == 0 {
      assert s == [c] && s[..1] == [c] && s[1..] == [];
      assert CutText(s) == [[c]] + CutText([]);
    } else {
      CutReturns(n - 1, c);
      assert s[1..] == ReturnsThen(n - 1, c) && s[..1] == "\r";
      assert s[1] == if n == 1 then c else '\r';
      assert CutText(s) == ["\r"] + CutText(s[1..]);
    }
  }

  /** The script that replaces the last of them. */
  function LastReplaced(n: nat): seq<Op> { [EqualRun(0, 0, n), Op(Replace, n, 1, n, 1)] }

  lemma {:induction false} LastReplacedIsScript(n: nat, c: char, d: char)
    requires c !in {'\r', '\n'} && d !in {'\r', '\n'}
    ensures IsScript(LastReplaced(n), ReturnsThen(n, c), ReturnsThen(n, d))
  {
    var ops, a, b := LastReplaced(n), ReturnLines(n, c), ReturnLines(n, d);
    CutReturns(n, c);
    CutReturns(n, d);
    assert a[0..n] == b[0..n];
    assert [ops[1]][1..] == [] && ops == [ops[0]] + [ops[1]];
    ConsLeads(ops[0], [ops[1]], a, b, 0, 0, n + 1, n + 1);
  }

  lemma {:induction false} LastReplacedGroups(n: nat)
    ensures var kept := if CONTEXT < n then CONTEXT else n;
      GroupedOps(LastReplaced(n)) == [[EqualRun(n - kept, n - kept, kept), Op(Replace, n, 1, n, 1)]]
  {
    var trimmed := TrimFirst(LastReplaced(n));
    var first, last := trimmed[0], trimmed[1];
    assert trimmed == [first] + [last] && trimmed[1..] == [last] && [last][1..] == [];
    assert TrimLast(trimmed) == trimmed && [] + [first] == [first];
    assert Groups(trimmed, []) == Groups([last], [first]) == Groups([], trimmed) == [trimmed];
    assert first == if CONTEXT < n then EqualRun(n - CONTEXT, n - CONTEXT, CONTEXT) else EqualRun(0, 0, n);
    assert last == Op(Replace, n, 1, n, 1) && trimmed == [first, last];
  }

  /** So a diff in which only the last of them changes makes `apply_hunks` panic on the very
      text that was diffed, if and only if there are five or more before it. */
  lemma {:induction false} LoneReturnsPanic(n: nat, c: char, d: char)
    requires c !in {'\r', '\n'} && d !in {'\r', '\n'}
    ensures IsScript(LastReplaced(n), ReturnsThen(n, c), ReturnsThen(n, d))
    ensures var hunks := HunksOfTexts(LastReplaced(n), ReturnsThen(n, c), ReturnsThen(n, d));
      NoPanic(hunks, 0, |LinesIn(ReturnsThen(n, c))|) <==> n < 5
  {
    var before, after := ReturnsThen(n, c), ReturnsThen(n, d);
    LastReplacedIsScript(n, c, d);
    LastReplacedGroups(n);
    LinesLast(before);
    HunksFitExactly(LastReplaced(n), before, after, before);
    OnlyGroup(GroupedOps(LastReplaced(n))[0], LinesOf(DiffedLines(before), DiffedLines(after)));
  }

  // ---------- any set of accepted hunks ----------

  /** Applying any set of hunks gives the text of the patched lines: those of the old text
      with the changes of these hunks and no others. */
  lemma {:induction false} AppliedText(ops: seq<Op>, before: string, edited: string, accepted: set<nat>)
    requires IsScript(ops, before, edited) && NoInnerCR(before)
    ensures Applied(before, HunksOfTexts(ops, before, edited), accepted)
         == Finish(Patch(ops, LinesIn(before), DiffedLines(edited), accepted, 0, true), before)
  {
    LineScript(ops, before, edited);
    PlainLines(before);
    SpliceIsPatch(ops, LinesIn(before), DiffedLines(edited), accepted);
  }

  // ---------- accepting everything, and nothing ----------

  /** Accepting every hunk brings back the new text if and only if it survives. */
  lemma {:induction false} AcceptAllText(ops: seq<Op>, before: string, edited: string, accepted: set<nat>)
    requires IsScript(ops, before, edited) && NoInnerCR(before)
    requires forall m: nat :: m < |HunksOfTexts(ops, before, edited)| ==> m in accepted
    ensures Applied(before, HunksOfTexts(ops, before, edited), accepted) == edited <==> Survives(edited, before)
  {
    LineScript(ops, before, edited);
    PlainLines(before);
    AcceptAll(ops, LinesIn(before), DiffedLines(edited), accepted);
    FinishOfDiffed(edited, before);
  }

  /** Accepting none brings back the old text if and only if it is empty, or has no carriage
      return before its last character and does not end in a blank line. */
  lemma {:induction false} RejectAllText(ops: seq<Op>, before: string, edited: string, accepted: set<nat>)
    requires IsScript(ops, before, edited) && NoInnerCR(before)
    requires forall m: nat :: m < |HunksOfTexts(ops, before, edited)| ==> m !in accepted
    ensures Applied(before, HunksOfTexts(ops, before, edited), accepted) == before <==>
              before == [] || (NoEarlyCR(before) && !EndsBlank(before))
  {
    LineScript(ops, before, edited);
    PlainLines(before);
    RejectAll(ops, LinesIn(before), DiffedLines(edited), accepted);
    FinishOfDiffed(before, before);
  }

  /** Appending a blank line to a file and accepting that change changes nothing. */
  lemma {:induction false} BlankLineLost(ops: seq<Op>, accepted: set<nat>)
    requires IsScript(ops, "a\n", "a\n\n")
    requires forall m: nat :: m < |HunksOfTexts(ops, "a\n", "a\n\n")| ==> m in accepted
    ensures Applied("a\n", HunksOfTexts(ops, "a\n", "a\n\n"), accepted) == "a\n"
  {
    LineScript(ops, "a\n", "a\n\n");
    PlainLines("a\n");
    PlainLines("a\n\n");
    AcceptAll(ops, LinesIn("a\n"), LinesIn("a\n\n"), accepted);
    JoinPlainLines("a\n\n");
  }

  // ---------- reading the result again ----------

  predicate CleanLine(line: Line) { '\n' !in line && '\r' !in line }

  predicate Clean(lines: Lines) { forall line :: line in lines ==> CleanLine(line) }

  /** The lines that reading the result gives: one blank line at the end is lost. */
  function WithoutLastBlank(lines: Lines): Lines {
    if lines != [] && lines[|lines| - 1] == [] then lines[..|lines| - 1] else lines
  }

  lemma {:induction false} LinesOfCons(line: Line, rest: string)
    requires CleanLine(line)
    ensures LinesIn(line + ['\n'] + rest) == [line] + LinesIn(rest)
  {
    var s := line + ['\n'] + rest;
    IndexAfterPrefix(line, '\n', rest);
    LinesStep(s, |line|);
    assert s[|line| + 1..] == rest && s[..|line| + 1] == line + ['\n'];
    assert line != [] ==> line[|line| - 1] in line;
    assert (line + ['\n'])[..|line|] == line;
  }

  lemma {:induction false} EmptyJoin(lines: Lines)
    ensures Join(lines, '\n') == [] <==> lines == [] || lines == [[]]
  {
  }

  lemma {:induction false} JoinEnds(lines: Lines)
    requires Clean(lines)
    ensures EndsLF(Join(lines, '\n')) <==> 1 < |lines| && lines[|lines| - 1] == []
  {
    if lines != [] {
      assert CleanLine(lines[0]);
      JoinEnds(lines[1..]);
      var t := Join(lines[1..], '\n');
      var s := Join(lines, '\n');
      if |lines| == 1 {
        assert s != [] ==> s[|s| - 1] in s;
      } else {
        assert t != [] ==> s[|s| - 1] == t[|t| - 1];
        EmptyJoin(lines[1..]);
      }
    }
  }

  lemma {:induction false} LinesOfOne(line: Line)
    requires CleanLine(line)
    ensures LinesIn(line) == WithoutLastBlank([line])
  {
    if line != [] {
      LinesLast(line);
    }
  }

  lemma {:induction false} LastOfRest(lines: Lines)
    requires 1 < |lines|
    ensures WithoutLastBlank(lines) == [lines[0]] + WithoutLastBlank(lines[1..])
  {
  }

  lemma {:induction false} LinesOfJoined(lines: Lines)
    requires Clean(lines)
    ensures LinesIn(Join(lines, '\n')) == WithoutLastBlank(lines)
  {
    if |lines| == 1 {
      assert lines[0] in lines && lines == [lines[0]];
      LinesOfOne(lines[0]);
    } else if lines != [] {
      assert lines[0] in lines;
      LinesOfJoined(lines[1..]);
      LinesOfCons(lines[0], Join(lines[1..], '\n'));
      LastOfRest(lines);
    }
  }

  lemma {:induction false} TerminatedCons(line: string, rest: string)
    ensures EndsLF(line + ['\n'] + rest) <==> Terminated(rest)
    ensures line + ['\n'] + rest + ['\n'] == line + ['\n'] + (rest + ['\n'])
  {
  }

  /** A last terminator adds no line. */
  lemma {:induction false} TerminatorAddsNoLine(s: string)
    requires s != [] && !EndsLF(s) && '\r' !in s
    ensures LinesIn(s + ['\n']) == LinesIn(s)
    decreases |s|
  {
    if '\n' in s {
      var line, rest := FirstLine(s);
      TerminatedCons(line, rest);
      TerminatorAddsNoLine(rest);
      LinesOfCons(line, rest + ['\n']);
    } else {
      LinesLast(s);
      LinesOfCons(s, []);
      assert s + ['\n'] + [] == s + ['\n'];
    }
  }

  lemma {:induction false} PatchIsClean(
      ops: seq<Op>, base: Lines, edited: Lines, accepted: set<nat>, k: nat, start: bool)
    requires Clean(base) && Clean(edited)
    ensures Clean(Patch(ops, base, edited, accepted, k, start))
    decreases |ops|
  {
    if ops != [] {
      var op := ops[0];
      var k' := if Splits(op) && !start && 1 < |ops| then k + 1 else k;
      PatchIsClean(ops[1..], base, edited, accepted, k', false);
      assert Clean(op.OldPart(base)) && Clean(op.NewPart(edited));
    }
  }

  lemma {:induction false} FinishedLines(lines: Lines, original: string)
    requires Clean(lines)
    ensures LinesIn(Finish(lines, original)) == WithoutLastBlank(lines)
  {
    var t := Join(lines, '\n');
    LinesOfJoined(lines);
    JoinHasNoCR(lines);
    if t != [] && !EndsLF(t) {
      TerminatorAddsNoLine(t);
    }
  }

  /** Between texts without lone carriage returns, reading the result of any set of hunks
      gives the patched lines again, but for a blank line at the very end. */
  lemma {:induction false} AppliedLines(ops: seq<Op>, before: string, edited: string, accepted: set<nat>)
    requires IsScript(ops, before, edited) && NoLoneCR(before) && NoLoneCR(edited)
    ensures LinesIn(Applied(before, HunksOfTexts(ops, before, edited), accepted))
         == WithoutLastBlank(Patch(ops, LinesIn(before), LinesIn(edited), accepted, 0, true))
  {
    var base, after := LinesIn(before), LinesIn(edited);
    InnerAfterFirst(before, 0);
    InnerAfterFirst(edited, 0);
    AppliedText(ops, before, edited, accepted);
    PlainLines(edited);
    LinesAreClean(before);
    LinesAreClean(edited);
    PatchIsClean(ops, base, after, accepted, 0, true);
    FinishedLines(Patch(ops, base, after, accepted, 0, true), before);
  }

  // ---------- reconstruct_added ----------

  function NewSides(hunks: seq<DiffHunk>): Lines {
    if hunks == [] then [] else Side(hunks[0].lines, true) + NewSides(hunks[1..])
  }

  lemma {:induction false} UnlinesConcat(a: Lines, b: Lines)
    ensures Unlines(a + b) == Unlines(a) + Unlines(b)
  {
    if a == [] {
      assert a + b == b;
    } else {
      UnlinesConcat(a[1..], b);
      assert (a + b)[1..] == a[1..] + b;
      Associate(a[0] + ['\n'], Unlines(a[1..]), Unlines(b));
    }
  }

  lemma {:induction false} PushedLine(out: string, lines: Lines, line: Line)
    ensures out + Unlines(lines) + line + ['\n'] == out + Unlines(lines + [line])
  {
    UnlinesConcat(lines, [line]);
    assert [line][1..] == [];
  }

  lemma {:induction false} NewSidesStep(hunks: seq<DiffHunk>, n: nat)
    requires n < |hunks|
    ensures NewSides(hunks[..n + 1]) == NewSides(hunks[..n]) + Side(hunks[n].lines, true)
    decreases n
  {
    assert hunks[..n + 1][1..] == hunks[1..][..n];
    if 0 < n {
      NewSidesStep(hunks[1..], n - 1);
      assert hunks[..n][1..] == hunks[1..][..n - 1];
    }
  }

  method PushAdded(lines: seq<DiffLine>, out: string) returns (out': string)
    ensures out' == out + Unlines(Side(lines, true))
  {
    out' := out;
    for m := 0 to |lines|
      invariant out' == out + Unlines(Side(lines[..m], true))
    {
      SideStep(lines, m, true);
      assert Side(lines[..m], true) + [] == Side(lines[..m], true);
      PushedLine(out, Side(lines[..m], true), lines[m].text);
      match lines[m] {
        case Added(s) => out' := out' + s + ['\n'];
        case Context(s) => out' := out' + s + ['\n'];
        case Removed(_) =>
      }
    }
    assert lines[..|lines|] == lines;
  }

  /** `reconstruct_added`. */
  method ReconstructAdded(hunks: seq<DiffHunk>) returns (out: string)
    ensures out == Unlines(NewSides(hunks))
  {
    out := [];
    for n := 0 to |hunks|
      invariant out == Unlines(NewSides(hunks[..n]))
    {
      NewSidesStep(hunks, n);
      UnlinesConcat(NewSides(hunks[..n]), Side(hunks[n].lines, true));
      out := PushAdded(hunks[n].lines, out);
    }
    assert hunks[..|hunks|] == hunks;
  }

  /** Into an empty file, splicing is just writing the new sides. */
  lemma {:induction false} SpliceIntoEmpty(hunks: seq<DiffHunk>, accepted: set<nat>, k: nat, c: nat)
    requires forall m: nat :: k <= m < k + |hunks| ==> m in accepted
    ensures Splice([], hunks, accepted, k, c) == NewSides(hunks)
  {
    if hunks != [] {
      SpliceIntoEmpty(hunks[1..], accepted, k + 1, HunkEnd(hunks[0]));
    }
  }

  /** An added file is rebuilt exactly if and only if it has no carriage return and is
      empty or terminated. */
  lemma {:induction false} AddedText(ops: seq<Op>, edited: string)
    requires IsScript(ops, [], edited)
    ensures Unlines(NewSides(HunksOfTexts(ops, [], edited))) == edited <==> '\r' !in edited && Terminated(edited)
  {
    var hunks := HunksOfTexts(ops, [], edited);
    LineScript(ops, [], edited);
    AcceptAll(ops, [], DiffedLines(edited), AllOf(|hunks|));
    SpliceIntoEmpty(hunks, AllOf(|hunks|), 0, 0);
    UnlinesOfDiffed(edited);
  }

  // ---------- files that differ ----------

  lemma {:induction false} HunkCount(groups: seq<seq<Op>>, render: Renderer, other: Renderer)
    ensures |HunksOf(groups, render)| == |HunksOf(groups, other)|
  {
    if groups != [] {
      HunkCount(groups[1..], render, other);
    }
  }

  /** Two texts that differ give at least one hunk. */
  lemma {:induction false} HunksIfDifferent(ops: seq<Op>, before: string, edited: string)
    requires IsScript(ops, before, edited) && HunksOfTexts(ops, before, edited) == []
    ensures before == edited
  {
    var a, b := CutText(before), CutText(edited);
    DiffHunksWellCut(ops, a, b);
    HunkCount(GroupedOps(ops), LinesOf(a, b), LinesOf(DiffedLines(before), DiffedLines(edited)));
    assert a[0..] == a && b[0..] == b;
    CutInjective(before, edited);
  }
}
