/** How the diff library cuts a text into lines: after every line feed, and after every
    carriage return that does not stand before one.  `str::lines`, which reads the original
    when hunks are applied, cuts after line feeds only.
    The two meet in crates/cuartel-core/src/overlay.rs, line 101, and
    crates/cuartel-core/src/review.rs, line 193. */
module LineCuts {
  import opened Wrappers
  import opened Text
  import opened EditScript
  import opened Overlay
  import opened LineText

  /** The length of the first line, its terminator included. */
  function CutLength(s: string): (n: nat)
    requires s != []
    ensures 1 <= n <= |s|
  {
    if s[0] == '\n' then 1
    else if s[0] == '\r' then (if FeedAfter(s, 0) then 2 else 1)
    else if |s| == 1 then 1
    else 1 + CutLength(s[1..])
  }

  function CutText(s: string): (tokens: seq<string>)
    decreases |s|
  {
    if s == [] then [] else [s[..CutLength(s)]] + CutText(s[CutLength(s)..])
  }

  /** The lines that hunks are made of. */
  function DiffedLines(s: string): Lines { Stripped(CutText(s)) }

  /** Every carriage return but one at the very end stands before a line feed. */
  predicate NoInnerCR(s: string) {
    forall i :: 0 <= i < |s| - 1 && s[i] == '\r' ==> FeedAfter(s, i)
  }

  lemma {:induction false} InnerAfterFirst(s: string, n: nat)
    requires n <= |s|
    ensures NoInnerCR(s) ==> NoInnerCR(s[n..])
    ensures NoLoneCR(s) ==> NoLoneCR(s[n..]) && NoInnerCR(s)
  {
    forall i | 0 <= i < |s[n..]|
      ensures s[n..][i] == s[n + i] && (FeedAfter(s, n + i) ==> FeedAfter(s[n..], i))
    {
    }
  }

  /** The first cut of a text without inner carriage returns is at its first line feed. */
  lemma {:induction false} CutAtFeed(s: string)
    requires s != [] && NoInnerCR(s)
    ensures CutLength(s) == if '\n' in s then IndexOf(s, '\n') + 1 else |s|
  {
    if s[0] == '\r' && FeedAfter(s, 0) {
      assert s[1..][0] == '\n';
    } else if s[0] != '\n' && 1 < |s| {
      assert s[0] != '\r';
      InnerAfterFirst(s, 1);
      CutAtFeed(s[1..]);
    }
  }

  lemma {:induction false} FirstToken(s: string, n: nat)
    requires s != [] && n == if '\n' in s then IndexOf(s, '\n') + 1 else |s|
    ensures Tokenize(s) == [s[..n]] + Tokenize(s[n..])
  {
    if '\n' in s {
      TokenizeStep(s, n - 1);
    } else {
      TokenizeLast(s);
      assert s[..n] == s && s[n..] == [];
    }
  }

  lemma {:induction false} SameCut(s: string)
    requires NoInnerCR(s)
    ensures CutText(s) == Tokenize(s)
    decreases |s|
  {
    if s != [] {
      CutAtFeed(s);
      FirstToken(s, CutLength(s));
      InnerAfterFirst(s, CutLength(s));
      SameCut(s[CutLength(s)..]);
    }
  }

  /** A cut holds a terminator only at its end. */
  lemma {:induction false} CutIsOneLine(s: string, k: nat)
    requires s != [] && k < CutLength(s)
    ensures s[k] == '\n' ==> k == CutLength(s) - 1
    ensures s[k] == '\r' ==> k == CutLength(s) - 1 || FeedAfter(s, k)
  {
    if s[0] !in {'\n', '\r'} && 0 < k {
      CutIsOneLine(s[1..], k - 1);
    }
  }

  lemma {:induction false} CutStep(s: string)
    requires s != []
    ensures CutText(s) == [s[..CutLength(s)]] + CutText(s[CutLength(s)..])
  {
  }

  lemma {:induction false} SameHeads(a: string, rest: seq<string>, b: string, rest': seq<string>)
    requires [a] + rest == [b] + rest'
    ensures a == b && rest == rest'
  {
    assert a == ([a] + rest)[0] && b == ([b] + rest')[0];
    assert rest == ([a] + rest)[1..] && rest' == ([b] + rest')[1..];
  }

  lemma {:induction false} SameFirstCut(s: string)
    requires s != [] && CutText(s) == Tokenize(s)
    ensures CutLength(s) == |s| || s[CutLength(s) - 1] == '\n'
    ensures CutText(s[CutLength(s)..]) == Tokenize(s[CutLength(s)..])
  {
    var n := CutLength(s);
    var m := if '\n' in s then IndexOf(s, '\n') + 1 else |s|;
    CutStep(s);
    FirstToken(s, m);
    SameHeads(s[..n], CutText(s[n..]), s[..m], Tokenize(s[m..]));
    assert n == |s[..n]| == |s[..m]| == m;
  }

  lemma {:induction false} NoInnerCons(s: string)
    requires s != [] && NoInnerCR(s[CutLength(s)..])
    requires CutLength(s) == |s| || s[CutLength(s) - 1] == '\n'
    ensures NoInnerCR(s)
  {
    var n := CutLength(s);
    forall i | 0 <= i < |s| - 1 && s[i] == '\r'
      ensures FeedAfter(s, i)
    {
      if i < n {
        CutIsOneLine(s, i);
      } else {
        assert s[n..][i - n] == '\r' && FeedAfter(s[n..], i - n);
      }
    }
  }

  lemma {:induction false} SameCutMeansNoInner(s: string)
    requires CutText(s) == Tokenize(s)
    ensures NoInnerCR(s)
    decreases |s|
  {
    if s != [] {
      SameFirstCut(s);
      SameCutMeansNoInner(s[CutLength(s)..]);
      NoInnerCons(s);
    }
  }

  /** Both cut a text alike if and only if no carriage return stands alone before its end. */
  lemma {:induction false} SameCutExactly(s: string)
    ensures CutText(s) == Tokenize(s) <==> NoInnerCR(s)
  {
    if NoInnerCR(s) {
      SameCut(s);
    }
    if CutText(s) == Tokenize(s) {
      SameCutMeansNoInner(s);
    }
  }

  /** Without inner carriage returns the lines of the diff are those of `str::lines`. */
  lemma {:induction false} PlainLines(s: string)
    requires NoInnerCR(s)
    ensures DiffedLines(s) == LinesIn(s)
  {
    SameCut(s);
  }

  // ---------- what the lines spell ----------

  function Spell(tokens: seq<string>): string {
    if tokens == [] then [] else tokens[0] + Spell(tokens[1..])
  }

  lemma {:induction false} CutSpells(s: string)
    ensures Spell(CutText(s)) == s
    decreases |s|
  {
    if s != [] {
      CutSpells(s[CutLength(s)..]);
      assert CutText(s)[1..] == CutText(s[CutLength(s)..]);
    }
  }

  /** Texts that are cut alike are the same. */
  lemma {:induction false} CutInjective(a: string, b: string)
    requires CutText(a) == CutText(b)
    ensures a == b
  {
    CutSpells(a);
    CutSpells(b);
  }

  /** No line feed, and a carriage return only at the end. */
  predicate OneLine(line: string) {
    forall k :: 0 <= k < |line| ==> line[k] != '\n' && (line[k] == '\r' ==> k == |line| - 1)
  }

  lemma {:induction false} CutStripsToOneLine(s: string)
    requires s != []
    ensures OneLine(StripNewline(s[..CutLength(s)]))
  {
    var token := s[..CutLength(s)];
    var line := StripNewline(token);
    forall k | 0 <= k < |line|
      ensures line[k] != '\n' && (line[k] == '\r' ==> k == |line| - 1)
    {
      assert line[k] == s[k];
      CutIsOneLine(s, k);
      if FeedAfter(s, k) && k + 1 < CutLength(s) {
        CutIsOneLine(s, k + 1);
      }
    }
  }

  lemma {:induction false} DiffedStep(s: string)
    requires s != []
    ensures DiffedLines(s) == [StripNewline(s[..CutLength(s)])] + DiffedLines(s[CutLength(s)..])
  {
  }

  lemma {:induction false} DiffedAreOneLine(s: string)
    ensures forall line :: line in DiffedLines(s) ==> OneLine(line)
    decreases |s|
  {
    if s != [] {
      DiffedAreOneLine(s[CutLength(s)..]);
      CutStripsToOneLine(s);
      DiffedStep(s);
    }
  }

  lemma {:induction false} JoinedLineCons(line: string, rest: string)
    requires OneLine(line) && NoInnerCR(rest)
    ensures NoInnerCR(line + ['\n'] + rest)
  {
    var s := line + ['\n'] + rest;
    forall i | 0 <= i < |s| - 1 && s[i] == '\r'
      ensures FeedAfter(s, i)
    {
      if |line| < i {
        assert rest[i - |line| - 1] == '\r' && FeedAfter(rest, i - |line| - 1);
      }
    }
  }

  /** Once such lines are joined, no carriage return stands alone before the end. */
  lemma {:induction false} JoinHasNoInnerCR(lines: Lines)
    requires forall line :: line in lines ==> OneLine(line)
    ensures NoInnerCR(Join(lines, '\n'))
  {
    if lines != [] {
      assert lines[0] in lines;
      if 1 < |lines| {
        JoinHasNoInnerCR(lines[1..]);
        JoinedLineCons(lines[0], Join(lines[1..], '\n'));
      }
    }
  }

  lemma {:induction false} FinishHasNoInnerCR(lines: Lines, original: string)
    requires forall line :: line in lines ==> OneLine(line)
    ensures NoInnerCR(Finish(lines, original))
  {
    var t := Join(lines, '\n');
    JoinHasNoInnerCR(lines);
    forall i | 0 <= i < |t| && t[i] == '\r'
      ensures FeedAfter(t + ['\n'], i)
    {
      assert i == |t| - 1 || FeedAfter(t, i);
    }
  }

  /** A carriage return stands nowhere but at the very end. */
  predicate NoEarlyCR(s: string) {
    forall i :: 0 <= i < |s| - 1 ==> s[i] != '\r'
  }

  /** What cutting a text and joining the lines brings back: a text without carriage returns
      before its last character that does not end in a blank line, and is terminated exactly
      when the original is. */
  predicate Survives(s: string, original: string) {
    s == [] || (NoEarlyCR(s) && !EndsBlank(s) && (EndsLF(s) <==> Terminated(original)))
  }

  lemma {:induction false} EarlyReturns(s: string)
    ensures NoEarlyCR(s) <==> NoInnerCR(s) && NoCRLF(s)
  {
    if i :| 0 <= i < |s| - 1 && s[i] == '\r' {
      assert !(FeedAfter(s, i) && NoCRLF(s));
    }
  }

  /** Finishing the lines of the diff brings a text back if and only if it survives. */
  lemma {:induction false} FinishOfDiffed(s: string, original: string)
    ensures Finish(DiffedLines(s), original) == s <==> Survives(s, original)
  {
    EarlyReturns(s);
    if NoInnerCR(s) {
      PlainLines(s);
      FinishOfLines(s, original);
    } else {
      DiffedAreOneLine(s);
      FinishHasNoInnerCR(DiffedLines(s), original);
    }
  }

  lemma {:induction false} TerminatedLineCons(line: string, rest: string)
    requires OneLine(line) && NoLoneCR(rest)
    ensures NoLoneCR(line + ['\n'] + rest)
  {
    var s := line + ['\n'] + rest;
    forall i | 0 <= i < |s| && s[i] == '\r'
      ensures FeedAfter(s, i)
    {
      if |line| < i {
        assert rest[i - |line| - 1] == '\r' && FeedAfter(rest, i - |line| - 1);
      }
    }
  }

  /** Once every such line is terminated, no carriage return stands alone. */
  lemma {:induction false} UnlinesHasNoLoneCR(lines: Lines)
    requires forall line :: line in lines ==> OneLine(line)
    ensures NoLoneCR(Unlines(lines))
  {
    if lines != [] {
      assert lines[0] in lines;
      UnlinesHasNoLoneCR(lines[1..]);
      TerminatedLineCons(lines[0], Unlines(lines[1..]));
    }
  }

  /** Ending every line of the diff brings a text back if and only if it has no carriage
      return and is empty or terminated. */
  lemma {:induction false} UnlinesOfDiffed(s: string)
    ensures Unlines(DiffedLines(s)) == s <==> '\r' !in s && Terminated(s)
  {
    if Unlines(DiffedLines(s)) == s {
      DiffedAreOneLine(s);
      UnlinesHasNoLoneCR(DiffedLines(s));
    }
    if NoLoneCR(s) {
      InnerAfterFirst(s, 0);
      PlainLines(s);
      UnlinesSurvives(s);
    } else {
      assert exists i :: 0 <= i < |s| && s[i] == '\r';
    }
  }
}
