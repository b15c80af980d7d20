/** Text as lines: what `str::lines` gives and what joining the lines again makes of it.
    Models the two ends of crates/cuartel-core/src/review.rs, lines 193 and 243 to 250. */
module LineText {
  import opened Text
  import opened EditScript
  import opened Overlay

  predicate EndsLF(s: string) { s != [] && s[|s| - 1] == '\n' }

  predicate Terminated(s: string) { s == [] || EndsLF(s) }

  /** Cut after every line feed, terminators kept.  This is also how the diff library cuts
      a text in which every carriage return stands before a line feed. */
  function Tokenize(s: string): (tokens: seq<string>)
    ensures s != [] ==> tokens != []
    decreases |s|
  {
    var i := IndexOf(s, '\n');
    if s == [] then [] else if i == |s| then [s] else [s[..i + 1]] + Tokenize(s[i + 1..])
  }

  predicate FeedAfter(s: string, i: int) { 0 <= i && i + 1 < |s| && s[i + 1] == '\n' }

  /** Every carriage return stands before a line feed. */
  predicate NoLoneCR(s: string) {
    forall i :: 0 <= i < |s| && s[i] == '\r' ==> FeedAfter(s, i)
  }

  /** None does. */
  predicate NoCRLF(s: string) {
    forall i :: 0 <= i < |s| && s[i] == '\r' ==> !FeedAfter(s, i)
  }

  /** `str::lines`. */
  function LinesIn(s: string): Lines { Stripped(Tokenize(s)) }

  lemma {:induction false} TokenizeStep(s: string, i: nat)
    requires i == IndexOf(s, '\n') && i < |s|
    ensures Tokenize(s) == [s[..i + 1]] + Tokenize(s[i + 1..])
  {
  }

  lemma {:induction false} TokenizeLast(s: string)
    requires s != [] && '\n' !in s
    ensures Tokenize(s) == [s]
  {
  }

  lemma {:induction false} LinesStep(s: string, i: nat)
    requires i == IndexOf(s, '\n') && i < |s|
    ensures LinesIn(s) == [StripNewline(s[..i + 1])] + LinesIn(s[i + 1..])
  {
    TokenizeStep(s, i);
  }

  lemma {:induction false} LinesLast(s: string)
    requires s != [] && '\n' !in s
    ensures LinesIn(s) == [s]
  {
  }

  /** A text without its last terminator. */
  function Body(s: string): string { if EndsLF(s) then s[..|s| - 1] else s }

  lemma {:induction false} RestOfLines(s: string, i: nat)
    requires i < |s| && s[i] == '\n'
    ensures NoCRLF(s) <==> (0 < i ==> s[i - 1] != '\r') && NoCRLF(s[..i]) && NoCRLF(s[i + 1..])
  {
    var line, rest := s[..i], s[i + 1..];
    forall k | 0 <= k < i && s[k] == '\r'
      ensures line[k] == '\r' && (FeedAfter(s, k) <==> k == i - 1 || FeedAfter(line, k))
    {
    }
    forall k | 0 <= k < |rest|
      ensures rest[k] == s[i + 1 + k] && (FeedAfter(s, i + 1 + k) <==> FeedAfter(rest, k))
    {
    }
    forall k | i < k < |s|
      ensures s[k] == rest[k - i - 1] && (FeedAfter(s, k) <==> FeedAfter(rest, k - i - 1))
    {
    }
  }

  /** The first line of a text in which every line feed stands alone, and what is after it. */
  lemma {:induction false} FirstLine(s: string) returns (line: string, rest: string)
    requires NoCRLF(s) && '\n' in s
    ensures s == line + ['\n'] + rest && LinesIn(s) == [line] + LinesIn(rest) && NoCRLF(rest)
    ensures '\n' !in line && ('\r' !in s ==> '\r' !in line && '\r' !in rest)
  {
    var i := IndexOf(s, '\n');
    line, rest := s[..i], s[i + 1..];
    LinesStep(s, i);
    RestOfLines(s, i);
    assert s[..i + 1] == line + ['\n'];
  }

  lemma {:induction false} JoinCons(line: string, lines: Lines)
    ensures Join([line] + lines, '\n') == if lines == [] then line else line + ['\n'] + Join(lines, '\n')
  {
  }

  lemma {:induction false} BodyCons(line: string, rest: string)
    ensures Body(line + ['\n'] + rest) == if rest == [] then line else line + ['\n'] + Body(rest)
  {
  }

  lemma {:induction false} JoinPlainLines(s: string)
    requires NoCRLF(s)
    ensures Join(LinesIn(s), '\n') == Body(s)
    decreases |s|
  {
    if '\n' in s {
      var line, rest := FirstLine(s);
      JoinPlainLines(rest);
      JoinCons(line, LinesIn(rest));
      BodyCons(line, rest);
    } else if s != [] {
      LinesLast(s);
    }
  }

  lemma {:induction false} JoinStep(s: string, i: nat)
    requires i == IndexOf(s, '\n') && i < |s|
    ensures var line, rest := StripNewline(s[..i + 1]), s[i + 1..];
      Join(LinesIn(s), '\n') == if rest == [] then line else line + ['\n'] + Join(LinesIn(rest), '\n')
  {
    LinesStep(s, i);
    JoinCons(StripNewline(s[..i + 1]), LinesIn(s[i + 1..]));
  }

  lemma {:induction false} BodyLength(s: string, i: nat)
    requires i < |s| && s[i] == '\n'
    ensures |Body(s)| == if i + 1 == |s| then i else i + 1 + |Body(s[i + 1..])|
  {
    assert i + 1 < |s| ==> s[i + 1..][|s| - i - 2] == s[|s| - 1];
  }

  lemma {:induction false} StripShorter(s: string, i: nat)
    requires i < |s| && s[i] == '\n'
    ensures |StripNewline(s[..i + 1])| <= i && (0 < i && s[i - 1] == '\r' ==> |StripNewline(s[..i + 1])| < i)
  {
  }

  lemma {:induction false} LineHasNoCRLF(s: string, i: nat)
    requires i == IndexOf(s, '\n')
    ensures NoCRLF(s[..i])
  {
    forall k | 0 <= k < i
      ensures !FeedAfter(s[..i], k)
    {
      assert k + 1 < i ==> s[..i][k + 1] in s[..i];
    }
  }

  /** Joining the lines never gives more than that, and gives less where a carriage return
      stood before a line feed. */
  lemma {:induction false} JoinShorter(s: string)
    ensures |Join(LinesIn(s), '\n')| <= |Body(s)|
    ensures !NoCRLF(s) ==> |Join(LinesIn(s), '\n')| < |Body(s)|
    decreases |s|
  {
    if '\n' in s {
      var i := IndexOf(s, '\n');
      JoinShorter(s[i + 1..]);
      JoinStep(s, i);
      BodyLength(s, i);
      StripShorter(s, i);
      LineHasNoCRLF(s, i);
      RestOfLines(s, i);
    } else if s != [] {
      LinesLast(s);
      LineHasNoCRLF(s, |s|);
      assert s[..|s|] == s;
    }
  }

  /** Joining the lines gives the text without its last terminator back if and only if no
      carriage return stands before a line feed. */
  lemma {:induction false} JoinLines(s: string)
    ensures Join(LinesIn(s), '\n') == Body(s) <==> NoCRLF(s)
  {
    JoinShorter(s);
    if NoCRLF(s) {
      JoinPlainLines(s);
    }
  }

  /** Every line with a terminator. */
  function Unlines(lines: Lines): string {
    if lines == [] then [] else (lines[0] + ['\n']) + Unlines(lines[1..])
  }

  lemma {:induction false} UnlinesCons(line: string, lines: Lines)
    ensures Unlines([line] + lines) == line + ['\n'] + Unlines(lines)
  {
  }

  /** A text with its last line terminated. */
  function Closed(s: string): string { if Terminated(s) then s else s + ['\n'] }

  lemma {:induction false} ClosedCons(line: string, rest: string)
    ensures Closed(line + ['\n'] + rest) == line + ['\n'] + Closed(rest)
  {
  }

  lemma {:induction false} UnlinesOfLines(s: string)
    requires '\r' !in s
    ensures Unlines(LinesIn(s)) == Closed(s)
    decreases |s|
  {
    if '\n' in s {
      var line, rest := FirstLine(s);
      UnlinesOfLines(rest);
      UnlinesCons(line, LinesIn(rest));
      ClosedCons(line, rest);
    } else if s != [] {
      LinesLast(s);
      UnlinesCons(s, []);
      assert s[|s| - 1] in s;
    }
  }

  lemma {:induction false} FirstIsClean(s: string, i: nat)
    requires NoLoneCR(s) && i == IndexOf(s, '\n') && i < |s|
    ensures '\r' !in StripNewline(s[..i + 1]) && '\n' !in StripNewline(s[..i + 1])
  {
  }

  /** Stripping takes the carriage returns away, with the line feeds. */
  lemma {:induction false} LinesAreClean(s: string)
    requires NoLoneCR(s)
    ensures forall line :: line in LinesIn(s) ==> '\r' !in line && '\n' !in line
    decreases |s|
  {
    if '\n' in s {
      var i := IndexOf(s, '\n');
      var rest := s[i + 1..];
      assert forall k :: 0 <= k < |rest| ==> rest[k] == s[i + 1 + k];
      LinesAreClean(rest);
      LinesStep(s, i);
      FirstIsClean(s, i);
    } else if s != [] {
      LinesLast(s);
      assert forall k :: 0 <= k < |s| && FeedAfter(s, k) ==> s[k + 1] in s;
    }
  }

  lemma {:induction false} JoinHasNoCR(lines: Lines)
    requires forall line :: line in lines ==> '\r' !in line
    ensures '\r' !in Join(lines, '\n') && '\r' !in Unlines(lines)
  {
    if lines != [] {
      assert lines[0] in lines;
      JoinHasNoCR(lines[1..]);
    }
  }

  // ---------- the text that apply_hunks returns ----------

  /** The output lines joined, with a last terminator if the original had one. */
  function Finish(lines: Lines, original: string): string {
    var t := Join(lines, '\n');
    if t != [] && !EndsLF(t) && Terminated(original) then t + ['\n'] else t
  }

  /** The last line is blank. */
  predicate EndsBlank(s: string) { s == "\n" || (2 <= |s| && s[|s| - 2..] == "\n\n") }

  /** What joining its lines again brings back: a text in which no carriage return stands
      before a line feed, that does not end in a blank line, and is terminated exactly when
      the original is. */
  predicate Rejoins(s: string, original: string) {
    s == [] || (NoCRLF(s) && !EndsBlank(s) && (EndsLF(s) <==> Terminated(original)))
  }

  lemma {:induction false} BodyEnds(s: string)
    ensures EndsLF(s) ==> s == Body(s) + ['\n'] && (EndsBlank(s) <==> Body(s) == [] || EndsLF(Body(s)))
  {
  }

  lemma {:induction false} FinishOfLines(s: string, original: string)
    ensures Finish(LinesIn(s), original) == s <==> Rejoins(s, original)
  {
    if NoCRLF(s) {
      JoinPlainLines(s);
      BodyEnds(s);
    } else {
      JoinShorter(s);
    }
  }

  /** Ending every line brings back a text that is empty or terminated, blank lines at its
      end included. */
  lemma {:induction false} UnlinesSurvives(s: string)
    requires NoLoneCR(s)
    ensures Unlines(LinesIn(s)) == s <==> '\r' !in s && Terminated(s)
  {
    if '\r' in s {
      LinesAreClean(s);
      JoinHasNoCR(LinesIn(s));
    } else {
      UnlinesOfLines(s);
    }
  }
}
