/** Which texts `parse` accepts, and as what: numbers with leading zeros or a plus sign,
    ranges, steps and lists, in five fields with any whitespace between them.
    Over crates/cuartel-core/src/cron.rs, lines 87 to 167. */
module CronGrammar {
  import opened Wrappers
  import opened Text
  import opened CronSyntax

  // ---------- numbers ----------

  function Zeros(k: nat): string { seq(k, i => '0') }

  /** The number in decimal, perhaps with zeros in front of it. */
  ghost predicate IsDecimalOf(s: string, n: nat) { exists k: nat :: s == Zeros(k) + ToDecimal(n) }

  /** Perhaps with a plus sign too.  Larger numbers have no text. */
  ghost predicate SpellsNumber(s: string, n: nat) {
    n <= U32_MAX && (IsDecimalOf(s, n) || (s != [] && s[0] == '+' && IsDecimalOf(s[1..], n)))
  }

  lemma {:induction false} ZerosAreDigits(k: nat, t: string)
    requires AllDigits(t)
    ensures AllDigits(Zeros(k) + t)
  {
    assert forall c :: c in Zeros(k) + t ==> c in Zeros(k) || c in t;
  }

  lemma {:induction false} LeadingZeros(k: nat, t: string)
    requires AllDigits(t) && AllDigits(Zeros(k) + t)
    ensures DecimalValue(Zeros(k) + t) == DecimalValue(t)
    decreases k + |t|
  {
    var s := Zeros(k) + t;
    if t != [] {
      assert s[..|s| - 1] == Zeros(k) + t[..|t| - 1];
      assert AllDigits(t[..|t| - 1]) && AllDigits(s[..|s| - 1]);
      LeadingZeros(k, t[..|t| - 1]);
    } else if 0 < k {
      assert s[..|s| - 1] == Zeros(k - 1) + t;
      assert AllDigits(s[..|s| - 1]);
      LeadingZeros(k - 1, t);
    }
  }

  lemma {:induction false} DecimalParses(s: string, n: nat)
    requires IsDecimalOf(s, n)
    ensures s != [] && AllDigits(s) && DecimalValue(s) == n
  {
    var k :| s == Zeros(k) + ToDecimal(n);
    ZerosAreDigits(k, ToDecimal(n));
    LeadingZeros(k, ToDecimal(n));
    DecimalRoundTrip(n);
  }

  lemma {:induction false} OneMoreDigit(init: string, v: nat, d: nat)
    requires IsDecimalOf(init, v) && d < 10
    ensures IsDecimalOf(init + [DigitChar(d)], 10 * v + d)
  {
    var k: nat :| init == Zeros(k) + ToDecimal(v);
    if v == 0 {
      assert ToDecimal(v) == [DigitChar(0)] && ToDecimal(d) == [DigitChar(d)];
      assert init + [DigitChar(d)] == Zeros(k + 1) + ToDecimal(d);
    } else {
      var n := 10 * v + d;
      assert n / 10 == v && n % 10 == d;
      assert init + [DigitChar(d)] == Zeros(k) + ToDecimal(n);
    }
  }

  lemma {:induction false} LastDigit(s: string) returns (init: string, d: nat)
    requires s != [] && AllDigits(s)
    ensures d < 10 && init == s[..|s| - 1] && s == init + [DigitChar(d)] && AllDigits(init)
    ensures DecimalValue(s) == 10 * DecimalValue(init) + d
  {
    init := s[..|s| - 1];
    assert s[|s| - 1] in s;
    d := s[|s| - 1] as int - '0' as int;
    assert DigitChar(d) == s[|s| - 1];
  }

  lemma {:induction false} DigitsOf(s: string)
    requires s != [] && AllDigits(s)
    ensures IsDecimalOf(s, DecimalValue(s))
    decreases |s|
  {
    var init, d := LastDigit(s);
    if init == [] {
      assert s == Zeros(0) + ToDecimal(d);
    } else {
      DigitsOf(init);
      OneMoreDigit(init, DecimalValue(init), d);
    }
  }

  /** `str::parse` of a `u32` accepts exactly these. */
  lemma {:induction false} NumberExactly(s: string, n: nat)
    ensures ParseU32(s) == Some(n) <==> SpellsNumber(s, n)
  {
    var digits := if s != [] && s[0] == '+' then s[1..] else s;
    if digits != [] && AllDigits(digits) {
      DigitsOf(digits);
    }
    if SpellsNumber(s, n) {
      var text := if IsDecimalOf(s, n) then s else s[1..];
      DecimalParses(text, n);
      assert text[0] in text;
    }
  }

  predicate NumberText(s: string) { s != [] && forall c :: c in s ==> IsDigit(c) || c == '+' }

  lemma {:induction false} NumberChars(s: string, n: nat)
    requires SpellsNumber(s, n)
    ensures NumberText(s)
  {
    if IsDecimalOf(s, n) {
      DecimalParses(s, n);
    } else {
      DecimalParses(s[1..], n);
      assert s == [s[0]] + s[1..];
    }
  }

  // ---------- fields ----------

  /** How a field value is written. */
  ghost predicate Spells(s: string, v: CronFieldValue)
    decreases v
  {
    match v
    case Any => s == "*"
    case Exact(n) => SpellsNumber(s, n)
    case Range(lo, hi) => exists a, b :: s == a + ['-'] + b && SpellsNumber(a, lo) && SpellsNumber(b, hi)
    case Step(base, step) => exists a, b :: s == a + ['/'] + b && Spells(a, base) && SpellsNumber(b, step)
    case List(items) =>
      exists texts :: s == Join(texts, ',') && |texts| == |items| &&
        forall i :: 0 <= i < |items| ==> Spells(texts[i], items[i])
  }

  lemma {:induction false} SplitParts(s: string, c: char)
    requires SplitOnce(s, c).Some?
    ensures var (a, b) := SplitOnce(s, c).value;
      s == a + [c] + b && c !in a && (forall x :: x in a || x in b ==> x in s)
  {
  }

  predicate AtomChars(s: string) { s != [] && forall c :: c in s ==> IsDigit(c) || c in {'+', '*', '-'} }

  predicate ItemChars(s: string) { s != [] && forall c :: c in s ==> IsDigit(c) || c in {'+', '*', '-', '/'} }

  lemma {:induction false} ParsedRange(
      s: string, a: string, b: string, v: CronFieldValue, field: string, min: nat, max: nat)
    requires ',' !in s && '/' !in s && SplitOnce(s, '-') == Some((a, b)) && ParseFieldValue(s, field, min, max) == Ok(v)
    ensures v.Range? && ParseU32(a) == Some(v.lo) && ParseU32(b) == Some(v.hi)
  {
  }

  lemma {:induction false} ParsedRangeSpells(s: string, v: CronFieldValue, field: string, min: nat, max: nat)
    requires ',' !in s && '/' !in s && SplitOnce(s, '-').Some? && ParseFieldValue(s, field, min, max) == Ok(v)
    ensures Spells(s, v)
  {
    var (a, b) := SplitOnce(s, '-').value;
    SplitParts(s, '-');
    ParsedRange(s, a, b, v, field, min, max);
    NumberExactly(a, v.lo);
    NumberExactly(b, v.hi);
  }

  lemma {:induction false} ParsedAtomSpells(s: string, field: string, min: nat, max: nat)
    requires ',' !in s && '/' !in s && ParseFieldValue(s, field, min, max).Ok?
    ensures Spells(s, ParseFieldValue(s, field, min, max).value)
  {
    var v := ParseFieldValue(s, field, min, max).value;
    if SplitOnce(s, '-').Some? {
      ParsedRangeSpells(s, v, field, min, max);
    } else if s != "*" {
      NumberExactly(s, v.n);
    }
  }

  lemma {:induction false} NumberSpelled(s: string, n: nat, field: string, min: nat, max: nat)
    requires SpellsNumber(s, n) && min <= n <= max
    ensures AtomChars(s) && ParseFieldValue(s, field, min, max) == Ok(Exact(n))
  {
    NumberChars(s, n);
    NumberExactly(s, n);
    ParseExact(s, n, field, min, max);
  }

  lemma {:induction false} RangeSpelled(
      s: string, a: string, b: string, lo: nat, hi: nat, field: string, min: nat, max: nat)
    requires s == a + ['-'] + b && SpellsNumber(a, lo) && SpellsNumber(b, hi)
    requires min <= lo <= max && min <= hi <= max
    ensures ParseFieldValue(s, field, min, max) == Ok(Range(lo, hi))
  {
    NumberChars(a, lo);
    NumberChars(b, hi);
    NumberExactly(a, lo);
    NumberExactly(b, hi);
    NotInParts(a, '-', b, ',');
    NotInParts(a, '-', b, '/');
    SplitOnceAtFirst(a, '-', b);
    ParseRange(s, a, b, lo, hi, field, min, max);
  }

  lemma {:induction false} RangeChars(a: string, b: string, lo: nat, hi: nat)
    requires SpellsNumber(a, lo) && SpellsNumber(b, hi)
    ensures AtomChars(a + ['-'] + b)
  {
    NumberChars(a, lo);
    NumberChars(b, hi);
    assert forall c :: c in a + ['-'] + b ==> c in a || c == '-' || c in b;
  }

  lemma {:induction false} AtomSpelled(s: string, v: CronFieldValue, field: string, min: nat, max: nat)
    requires IsAtom(v, min, max) && Spells(s, v)
    ensures AtomChars(s) && ParseFieldValue(s, field, min, max) == Ok(v)
  {
    match v
    case Any => assert SplitOnce("*", '/').None? && SplitOnce("*", '-').None? && ',' !in "*";
    case Exact(n) => NumberSpelled(s, n, field, min, max);
    case Range(lo, hi) =>
      var a, b :| s == a + ['-'] + b && SpellsNumber(a, lo) && SpellsNumber(b, hi);
      RangeSpelled(s, a, b, lo, hi, field, min, max);
      RangeChars(a, b, lo, hi);
  }

  lemma {:induction false} ParsedItemSpells(s: string, field: string, min: nat, max: nat)
    requires ',' !in s && ParseFieldValue(s, field, min, max).Ok?
    ensures Spells(s, ParseFieldValue(s, field, min, max).value)
  {
    if SplitOnce(s, '/').Some? {
      var v := ParseFieldValue(s, field, min, max).value;
      var (a, b) := SplitOnce(s, '/').value;
      SplitParts(s, '/');
      NumberExactly(b, v.step);
      ParsedAtomSpells(a, field, min, max);
    } else {
      ParsedAtomSpells(s, field, min, max);
    }
  }

  lemma {:induction false} ParseStep(
      s: string, a: string, b: string, base: CronFieldValue, step: nat, field: string, min: nat, max: nat)
    requires ',' !in s && SplitOnce(s, '/') == Some((a, b)) && ParseU32(b) == Some(step) && step != 0
    requires ParseFieldValue(a, field, min, max) == Ok(base)
    ensures ParseFieldValue(s, field, min, max) == Ok(Step(base, step))
  {
  }

  lemma {:induction false} StepChars(a: string, b: string)
    requires AtomChars(a) && NumberText(b)
    ensures ItemChars(a + ['/'] + b)
  {
    assert forall c :: c in a + ['/'] + b ==> c in a || c == '/' || c in b;
  }

  lemma {:induction false} StepSpelled(
      s: string, a: string, b: string, base: CronFieldValue, step: nat, field: string, min: nat, max: nat)
    requires s == a + ['/'] + b && IsAtom(base, min, max) && Spells(a, base) && SpellsNumber(b, step) && step != 0
    ensures ItemChars(s) && ParseFieldValue(s, field, min, max) == Ok(Step(base, step))
  {
    AtomSpelled(a, base, field, min, max);
    NumberChars(b, step);
    NumberExactly(b, step);
    StepChars(a, b);
    NotInParts(a, '/', b, ',');
    SplitOnceAtFirst(a, '/', b);
    ParseStep(s, a, b, base, step, field, min, max);
  }

  lemma {:induction false} ItemSpelled(s: string, v: CronFieldValue, field: string, min: nat, max: nat)
    requires IsItem(v, min, max) && Spells(s, v)
    ensures ItemChars(s) && ParseFieldValue(s, field, min, max) == Ok(v)
  {
    if v.Step? {
      var a, b :| s == a + ['/'] + b && Spells(a, v.base) && SpellsNumber(b, v.step);
      StepSpelled(s, a, b, v.base, v.step, field, min, max);
    } else {
      AtomSpelled(s, v, field, min, max);
    }
  }

  // ---------- lists ----------

  lemma {:induction false} JoinFirst(p: string, pieces: seq<string>, c: char)
    requires pieces != []
    ensures Join([p] + pieces, c) == p + [c] + Join(pieces, c)
  {
    assert ([p] + pieces)[1..] == pieces;
  }

  lemma {:induction false} AtFirst(s: string, c: char) returns (p: string, rest: string)
    requires c in s
    ensures s == p + [c] + rest && c !in p
  {
    var i := IndexOf(s, c);
    p, rest := s[..i], s[i + 1..];
  }

  lemma {:induction false} JoinOfSplit(s: string, c: char)
    ensures Join(Split(s, c), c) == s
    decreases |s|
  {
    if c in s {
      var p, rest := AtFirst(s, c);
      SplitFirst(p, c, rest);
      JoinOfSplit(rest, c);
      JoinFirst(p, Split(rest, c), c);
    }
  }

  lemma {:induction false} ParsedItemsSpell(pieces: seq<string>, bound: nat, field: string, min: nat, max: nat)
    requires forall p :: p in pieces ==> |p| < bound && ',' !in p && Solid(p)
    requires ParseItems(pieces, bound, field, min, max).Ok?
    ensures var items := ParseItems(pieces, bound, field, min, max).value;
      |items| == |pieces| && forall i :: 0 <= i < |items| ==> Spells(pieces[i], items[i])
  {
    if pieces != [] {
      assert pieces[0] in pieces;
      ParsedItemSpells(pieces[0], field, min, max);
      ParsedItemsSpell(pieces[1..], bound, field, min, max);
    }
  }

  lemma {:induction false} PiecesSolid(s: string, c: char)
    requires Solid(s)
    ensures forall p :: p in Split(s, c) ==> Solid(p)
    decreases |s|
  {
    var i := IndexOf(s, c);
    assert forall x :: x in s[..i] ==> x in s;
    if i < |s| {
      assert forall x :: x in s[i + 1..] ==> x in s;
      PiecesSolid(s[i + 1..], c);
    }
  }

  lemma {:induction false} ListSpelled(s: string, v: CronFieldValue, field: string, min: nat, max: nat)
    requires v.List? && 2 <= |v.items| && AllItems(v.items, min, max) && Spells(s, v)
    ensures ParseFieldValue(s, field, min, max) == Ok(v)
  {
    var texts :| s == Join(texts, ',') && |texts| == |v.items| &&
      forall i :: 0 <= i < |v.items| ==> Spells(texts[i], v.items[i]);
    forall i | 0 <= i < |v.items|
      ensures ',' !in texts[i] && ParseFieldValue(Trim(texts[i]), field, min, max) == Ok(v.items[i])
    {
      assert v.items[i] in v.items;
      ItemSpelled(texts[i], v.items[i], field, min, max);
      assert Solid(texts[i]);
    }
    ParseList(v.items, texts, field, min, max);
  }

  /** A field is accepted as a value if and only if the value is well-formed and the text is
      one way to write it. */
  lemma {:induction false} FieldExactly(s: string, v: CronFieldValue, field: string, min: nat, max: nat)
    requires Solid(s)
    ensures ParseFieldValue(s, field, min, max) == Ok(v) <==> IsFieldValue(v, min, max) && Spells(s, v)
  {
    if ParseFieldValue(s, field, min, max) == Ok(v) {
      ParsedFieldValue(s, field, min, max);
      if ',' in s {
        PiecesSolid(s, ',');
        JoinOfSplit(s, ',');
        ParsedItemsSpell(Split(s, ','), |s|, field, min, max);
      } else {
        ParsedItemSpells(s, field, min, max);
      }
    }
    if IsFieldValue(v, min, max) && Spells(s, v) {
      if v.List? {
        ListSpelled(s, v, field, min, max);
      } else {
        ItemSpelled(s, v, field, min, max);
      }
    }
  }

  // ---------- whole expressions ----------

  predicate Blank(s: string) { forall c :: c in s ==> IsWhitespace(c) }

  /** The text is the words with whitespace around and between them. */
  ghost predicate HasWords(s: string, words: seq<string>)
    decreases |words|
  {
    if words == [] then Blank(s)
    else
      exists gap, rest ::
        && s == gap + words[0] + rest && Blank(gap) && words[0] != [] && Solid(words[0])
        && (rest == [] || IsWhitespace(rest[0])) && HasWords(rest, words[1..])
  }

  lemma {:induction false} MoreBlank(c: char, s: string, words: seq<string>)
    requires IsWhitespace(c) && HasWords(s, words)
    ensures HasWords([c] + s, words)
  {
    if words == [] {
      assert forall x :: x in [c] + s ==> x == c || x in s;
    } else {
      var gap, rest :|
        && s == gap + words[0] + rest && Blank(gap) && words[0] != [] && Solid(words[0])
        && (rest == [] || IsWhitespace(rest[0])) && HasWords(rest, words[1..]);
      assert [c] + s == ([c] + gap) + words[0] + rest;
      assert forall x :: x in [c] + gap ==> x == c || x in gap;
    }
  }

  lemma {:induction false} SplitHasWords(s: string)
    ensures HasWords(s, SplitWhitespace(s))
    decreases |s|
  {
    if s != [] {
      if IsWhitespace(s[0]) {
        SplitHasWords(s[1..]);
        MoreBlank(s[0], s[1..], SplitWhitespace(s[1..]));
        assert s == [s[0]] + s[1..];
      } else {
        var n := WordLength(s);
        SplitHasWords(s[n..]);
        assert s == [] + s[..n] + s[n..] && Blank([]);
        assert SplitWhitespace(s)[1..] == SplitWhitespace(s[n..]);
      }
    }
  }

  lemma {:induction false} SkipBlank(gap: string, s: string)
    requires Blank(gap)
    ensures SplitWhitespace(gap + s) == SplitWhitespace(s)
  {
    if gap == [] {
      assert gap + s == s;
    } else {
      assert gap[0] in gap && (gap + s)[1..] == gap[1..] + s;
      SkipBlank(gap[1..], s);
    }
  }

  lemma {:induction false} FirstWord(gap: string, w: string, rest: string)
    requires Blank(gap) && w != [] && Solid(w) && (rest == [] || IsWhitespace(rest[0]))
    ensures SplitWhitespace(gap + w + rest) == [w] + SplitWhitespace(rest)
  {
    assert gap + w + rest == gap + (w + rest);
    SkipBlank(gap, w + rest);
    WordBeforeBlank(w, rest);
    assert w[0] in w && (w + rest)[0] == w[0];
    assert (w + rest)[..|w|] == w && (w + rest)[|w|..] == rest;
  }

  lemma {:induction false} NoWords(s: string)
    requires Blank(s)
    ensures SplitWhitespace(s) == []
  {
    SkipBlank(s, []);
    assert s + [] == s;
  }

  lemma {:induction false} HasWordsSplits(s: string, words: seq<string>)
    requires HasWords(s, words)
    ensures SplitWhitespace(s) == words
    decreases |words|
  {
    if words == [] {
      NoWords(s);
    } else {
      var gap, rest :|
        && s == gap + words[0] + rest && Blank(gap) && words[0] != [] && Solid(words[0])
        && (rest == [] || IsWhitespace(rest[0])) && HasWords(rest, words[1..]);
      HasWordsSplits(rest, words[1..]);
      FirstWord(gap, words[0], rest);
    }
  }

  /** `split_whitespace` finds exactly these words. */
  lemma {:induction false} WordsExactly(s: string, words: seq<string>)
    ensures SplitWhitespace(s) == words <==> HasWords(s, words)
  {
    SplitHasWords(s);
    if HasWords(s, words) {
      HasWordsSplits(s, words);
    }
  }

  /** Five words, one for each field. */
  ghost predicate SpelledBy(words: seq<string>, e: CronExpr) {
    && |words| == 5
    && Spells(words[0], e.minute.value) && Spells(words[1], e.hour.value)
    && Spells(words[2], e.dayOfMonth.value) && Spells(words[3], e.month.value)
    && Spells(words[4], e.dayOfWeek.value)
  }

  lemma {:induction false} OneFieldExactly(s: string, f: CronField, field: string, min: nat, max: nat)
    requires Solid(s)
    ensures ParseField(s, field, min, max) == Ok(f) <==>
              f.min == min && f.max == max && IsFieldValue(f.value, min, max) && Spells(s, f.value)
  {
    FieldExactly(s, f.value, field, min, max);
  }

  lemma {:induction false} FiveFieldsExactly(words: seq<string>, e: CronExpr)
    requires |words| == 5 && forall w :: w in words ==> Solid(w)
    ensures ParsesFields(words, e) <==> IsExpr(e) && SpelledBy(words, e)
  {
    assert forall k :: 0 <= k < 5 ==> words[k] in words;
    OneFieldExactly(words[0], e.minute, "minute", 0, 59);
    OneFieldExactly(words[1], e.hour, "hour", 0, 23);
    OneFieldExactly(words[2], e.dayOfMonth, "day_of_month", 1, 31);
    OneFieldExactly(words[3], e.month, "month", 1, 12);
    OneFieldExactly(words[4], e.dayOfWeek, "day_of_week", 0, 6);
  }

  lemma {:induction false} ParsedFields(s: string, fields: seq<string>, e: CronExpr)
    requires SplitWhitespace(s) == fields && |fields| == 5
    ensures Parse(s) == Ok(e) ==> ParsesFields(fields, e)
  {
  }

  /** A text is accepted as an expression if and only if the expression is well-formed and
      the text spells its five fields, with whitespace around and between them. */
  lemma {:induction false} ParseExactly(s: string, e: CronExpr)
    ensures Parse(s) == Ok(e) <==> IsExpr(e) && exists words :: HasWords(s, words) && SpelledBy(words, e)
  {
    var fields := SplitWhitespace(s);
    WordsExactly(s, fields);
    if |fields| == 5 {
      FiveFieldsExactly(fields, e);
      ParsedFields(s, fields, e);
      if ParsesFields(fields, e) {
        ParseFiveFields(s, fields, e);
      }
    }
    if words :| HasWords(s, words) && SpelledBy(words, e) {
      WordsExactly(s, words);
    }
  }

  /** Any other number of words is reported. */
  lemma {:induction false} WordCount(s: string, words: seq<string>)
    requires HasWords(s, words) && |words| != 5
    ensures Parse(s) == Err(if |words| < 5 then TooFewFields(|words|) else TooManyFields(|words|))
  {
    WordsExactly(s, words);
  }

  // ---------- why a text is refused ----------

  /** An error about one field names that field, and a number only if it is out of range. */
  ghost predicate IsFieldError(error: CronError, field: string, min: nat, max: nat) {
    match error
    case InvalidField(name, _) => name == field
    case ValueOutOfRange(name, val, lo, hi) => name == field && lo == min && hi == max && (val < min || max < val)
    case _ => false
  }

  lemma {:induction false} ItemError(s: string, field: string, min: nat, max: nat)
    requires ',' !in s && ParseFieldValue(s, field, min, max).Err?
    ensures IsFieldError(ParseFieldValue(s, field, min, max).error, field, min, max)
    decreases |s|
  {
    if SplitOnce(s, '/').Some? {
      var (a, b) := SplitOnce(s, '/').value;
      SplitParts(s, '/');
      if ParseFieldValue(a, field, min, max).Err? {
        ItemError(a, field, min, max);
      }
    }
  }

  lemma {:induction false} ItemsError(pieces: seq<string>, bound: nat, field: string, min: nat, max: nat)
    requires forall p :: p in pieces ==> |p| < bound && ',' !in p
    requires ParseItems(pieces, bound, field, min, max).Err?
    ensures IsFieldError(ParseItems(pieces, bound, field, min, max).error, field, min, max)
  {
    assert pieces[0] in pieces;
    if ParseFieldValue(Trim(pieces[0]), field, min, max).Err? {
      ItemError(Trim(pieces[0]), field, min, max);
    } else {
      ItemsError(pieces[1..], bound, field, min, max);
    }
  }

  lemma {:induction false} FieldError(s: string, field: string, min: nat, max: nat)
    requires ParseFieldValue(s, field, min, max).Err?
    ensures IsFieldError(ParseFieldValue(s, field, min, max).error, field, min, max)
  {
    if ',' in s {
      ItemsError(Split(s, ','), |s|, field, min, max);
    } else {
      ItemError(s, field, min, max);
    }
  }

  /** A text that is a number is refused just for being out of range, and any other without
      a comma, a slash, a dash or a star is invalid. */
  lemma {:induction false} PlainText(s: string, n: nat, field: string, min: nat, max: nat)
    requires ',' !in s && '/' !in s && '-' !in s && s != "*"
    ensures ParseFieldValue(s, field, min, max) == Err(ValueOutOfRange(field, n, min, max)) <==>
              SpellsNumber(s, n) && (n < min || max < n)
    ensures ParseFieldValue(s, field, min, max) == Err(InvalidField(field, s)) <==>
              !exists m :: SpellsNumber(s, m)
  {
    assert SplitOnce(s, '/').None? && SplitOnce(s, '-').None?;
    forall m: nat
      ensures ParseU32(s) == Some(m) <==> SpellsNumber(s, m)
    {
      NumberExactly(s, m);
    }
  }
}
