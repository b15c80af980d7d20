/** Cron expressions: what a field value matches, the parser and the printer.
    Models the first half of crates/cuartel-core/src/cron.rs. */
module CronSyntax {
  import opened Wrappers
  import opened Text

  datatype CronError =
    | InvalidField(field: string, value: string)
    | TooFewFields(count: nat)
    | TooManyFields(count: nat)
    | ValueOutOfRange(field: string, val: nat, min: nat, max: nat)
    | NoNextTick

  datatype CronFieldValue =
    | Any
    | Exact(n: nat)
    | Range(lo: nat, hi: nat)
    | Step(base: CronFieldValue, step: nat)
    | List(items: seq<CronFieldValue>)
  {
    /** The precondition is what keeps the source's u32 subtraction `val - min`
        from underflowing. */
    predicate Matches(val: nat, min: nat, max: nat)
      requires min <= val
    {
      match this
      case Any => true
      case Exact(n) => val == n
      case Range(lo, hi) => lo <= val <= hi
      case Step(base, step) =>
        step != 0 &&
        (match base
         case Any => (val - min) % step == 0
         case Range(lo, hi) => lo <= val <= hi && (val - lo) % step == 0
         case _ => false)
      case List(items) => exists i :: 0 <= i < |items| && items[i].Matches(val, min, max)
    }
  }

  datatype CronField = CronField(value: CronFieldValue, min: nat, max: nat) {
    predicate Matches(val: nat)
      requires min <= val
    {
      value.Matches(val, min, max)
    }
  }

  datatype CronExpr = CronExpr(
    minute: CronField, hour: CronField, dayOfMonth: CronField, month: CronField, dayOfWeek: CronField)
  {
    /** The bounds `parse` gives the five private fields; nothing else builds them. */
    predicate HasBounds() {
      && minute.min == 0 && minute.max == 59
      && hour.min == 0 && hour.max == 23
      && dayOfMonth.min == 1 && dayOfMonth.max == 31
      && month.min == 1 && month.max == 12
      && dayOfWeek.min == 0 && dayOfWeek.max == 6
    }
  }

  // ---------- the parser ----------

  function ValidateRange(val: nat, field: string, min: nat, max: nat): Result<Unit, CronError> {
    if val < min || max < val then Err(ValueOutOfRange(field, val, min, max)) else Ok(Unit)
  }

  function ParseNumber(text: string, field: string, input: string): Result<nat, CronError> {
    match ParseU32(text)
    case Some(n) => Ok(n)
    case None => Err(InvalidField(field, input))
  }

  function ParseFieldValue(input: string, field: string, min: nat, max: nat): Result<CronFieldValue, CronError>
    decreases |input|
  {
    if ',' in input then
      var items :- ParseItems(Split(input, ','), |input|, field, min, max);
      Ok(List(items))
    else if SplitOnce(input, '/').Some? then
      var (base, stepText) := SplitOnce(input, '/').value;
      var step :- ParseNumber(stepText, field, input);
      if step == 0 then Err(InvalidField(field, input))
      else
        var baseValue :- ParseFieldValue(base, field, min, max);
        Ok(Step(baseValue, step))
    else if SplitOnce(input, '-').Some? then
      var (loText, hiText) := SplitOnce(input, '-').value;
      var lo :- ParseNumber(loText, field, input);
      var hi :- ParseNumber(hiText, field, input);
      var _ :- ValidateRange(lo, field, min, max);
      var _ :- ValidateRange(hi, field, min, max);
      Ok(Range(lo, hi))
    else if input == "*" then
      Ok(Any)
    else
      var val :- ParseNumber(input, field, input);
      var _ :- ValidateRange(val, field, min, max);
      Ok(Exact(val))
  }

  /** The pieces of a list, left to right, up to the first that fails. */
  function ParseItems(pieces: seq<string>, bound: nat, field: string, min: nat, max: nat)
    : Result<seq<CronFieldValue>, CronError>
    requires forall p :: p in pieces ==> |p| < bound
    decreases bound, |pieces|
  {
    if pieces == [] then Ok([])
    else
      assert pieces[0] in pieces;
      var first :- ParseFieldValue(Trim(pieces[0]), field, min, max);
      var rest :- ParseItems(pieces[1..], bound, field, min, max);
      Ok([first] + rest)
  }

  function ParseField(input: string, field: string, min: nat, max: nat): Result<CronField, CronError> {
    var value :- ParseFieldValue(input, field, min, max);
    Ok(CronField(value, min, max))
  }

  type FieldResult = Result<CronField, CronError>

  /** The five fields, or the error of the first that fails. */
  function AllFields(minute: FieldResult, hour: FieldResult, dayOfMonth: FieldResult, month: FieldResult,
                     dayOfWeek: FieldResult): Result<CronExpr, CronError>
  {
    var m :- minute;
    var h :- hour;
    var d :- dayOfMonth;
    var mo :- month;
    var w :- dayOfWeek;
    Ok(CronExpr(m, h, d, mo, w))
  }

  function Parse(expr: string): (r: Result<CronExpr, CronError>)
    ensures r.Ok? ==> r.value.HasBounds()
  {
    var fields := SplitWhitespace(expr);
    if |fields| < 5 then Err(TooFewFields(|fields|))
    else if 5 < |fields| then Err(TooManyFields(|fields|))
    else
      AllFields(
        ParseField(fields[0], "minute", 0, 59),
        ParseField(fields[1], "hour", 0, 23),
        ParseField(fields[2], "day_of_month", 1, 31),
        ParseField(fields[3], "month", 1, 12),
        ParseField(fields[4], "day_of_week", 0, 6))
  }

  // ---------- the printer ----------

  function ValueText(v: CronFieldValue): string {
    match v
    case Any => "*"
    case Exact(n) => ToDecimal(n)
    case Range(lo, hi) => ToDecimal(lo) + ['-'] + ToDecimal(hi)
    case Step(base, step) => ValueText(base) + ['/'] + ToDecimal(step)
    case List(items) => Join(seq(|items|, i requires 0 <= i < |items| => ValueText(items[i])), ',')
  }

  function FieldTexts(e: CronExpr): seq<string> {
    [ValueText(e.minute.value), ValueText(e.hour.value), ValueText(e.dayOfMonth.value),
     ValueText(e.month.value), ValueText(e.dayOfWeek.value)]
  }

  function ExprText(e: CronExpr): string { Join(FieldTexts(e), ' ') }

  // ---------- which values the parser produces ----------

  predicate IsAtom(v: CronFieldValue, min: nat, max: nat) {
    match v
    case Any => true
    case Exact(n) => min <= n <= max
    case Range(lo, hi) => min <= lo <= max && min <= hi <= max
    case _ => false
  }

  predicate IsItem(v: CronFieldValue, min: nat, max: nat) {
    || IsAtom(v, min, max)
    || (v.Step? && IsAtom(v.base, min, max) && 1 <= v.step <= U32_MAX)
  }

  predicate AllItems(items: seq<CronFieldValue>, min: nat, max: nat) {
    forall v :: v in items ==> IsItem(v, min, max)
  }

  predicate IsFieldValue(v: CronFieldValue, min: nat, max: nat) {
    IsItem(v, min, max) || (v.List? && 2 <= |v.items| && AllItems(v.items, min, max))
  }

  predicate IsExpr(e: CronExpr) {
    && e.HasBounds()
    && IsFieldValue(e.minute.value, 0, 59)
    && IsFieldValue(e.hour.value, 0, 23)
    && IsFieldValue(e.dayOfMonth.value, 1, 31)
    && IsFieldValue(e.month.value, 1, 12)
    && IsFieldValue(e.dayOfWeek.value, 0, 6)
  }

  lemma {:induction false} ParsedAtom(input: string, field: string, min: nat, max: nat)
    requires ',' !in input && '/' !in input
    requires ParseFieldValue(input, field, min, max).Ok?
    ensures IsAtom(ParseFieldValue(input, field, min, max).value, min, max)
  {
  }

  lemma {:induction false} ParsedItem(input: string, field: string, min: nat, max: nat)
    requires ',' !in input
    requires ParseFieldValue(input, field, min, max).Ok?
    ensures IsItem(ParseFieldValue(input, field, min, max).value, min, max)
  {
    var i := IndexOf(input, '/');
    if i < |input| {
      assert forall c :: c in input[..i] ==> c in input;
      ParsedAtom(input[..i], field, min, max);
    } else {
      ParsedAtom(input, field, min, max);
    }
  }

  lemma {:induction false} ParsedItems(pieces: seq<string>, bound: nat, field: string, min: nat, max: nat)
    requires forall p :: p in pieces ==> |p| < bound && ',' !in p
    requires ParseItems(pieces, bound, field, min, max).Ok?
    ensures var items := ParseItems(pieces, bound, field, min, max).value;
      |items| == |pieces| && AllItems(items, min, max)
  {
    if pieces != [] {
      assert pieces[0] in pieces;
      ParsedItem(Trim(pieces[0]), field, min, max);
      ParsedItems(pieces[1..], bound, field, min, max);
    }
  }

  lemma {:induction false} ParsedFieldValue(input: string, field: string, min: nat, max: nat)
    requires ParseFieldValue(input, field, min, max).Ok?
    ensures IsFieldValue(ParseFieldValue(input, field, min, max).value, min, max)
  {
    if ',' in input {
      ParsedItems(Split(input, ','), |input|, field, min, max);
    } else {
      ParsedItem(input, field, min, max);
    }
  }

  lemma {:induction false} ParsedExpr(s: string)
    requires Parse(s).Ok?
    ensures IsExpr(Parse(s).value)
  {
    var fields := SplitWhitespace(s);
    ParsedFieldValue(fields[0], "minute", 0, 59);
    ParsedFieldValue(fields[1], "hour", 0, 23);
    ParsedFieldValue(fields[2], "day_of_month", 1, 31);
    ParsedFieldValue(fields[3], "month", 1, 12);
    ParsedFieldValue(fields[4], "day_of_week", 0, 6);
  }

  // ---------- printing and parsing again ----------

  predicate IsCronChar(c: char) { IsDigit(c) || c in {'*', '-', '/', ','} }

  predicate AtomText(s: string) { s != [] && forall c :: c in s ==> IsDigit(c) || c in {'*', '-'} }

  predicate ItemText(s: string) { s != [] && forall c :: c in s ==> IsDigit(c) || c in {'*', '-', '/'} }

  lemma {:induction false} ParseExact(s: string, n: nat, field: string, min: nat, max: nat)
    requires ',' !in s && '/' !in s && '-' !in s && '*' !in s
    requires ParseU32(s) == Some(n) && min <= n <= max
    ensures ParseFieldValue(s, field, min, max) == Ok(Exact(n))
  {
    assert '*' in "*";
  }

  lemma {:induction false} PrintedNumber(n: nat, field: string, min: nat, max: nat)
    requires min <= n <= max && max <= U32_MAX
    ensures ParseFieldValue(ToDecimal(n), field, min, max) == Ok(Exact(n))
  {
    ParsePrinted(n);
    ParseExact(ToDecimal(n), n, field, min, max);
  }

  lemma {:induction false} ParseRange(
      s: string, from: string, to: string, lo: nat, hi: nat, field: string, min: nat, max: nat)
    requires ',' !in s && '/' !in s && SplitOnce(s, '-') == Some((from, to))
    requires ParseU32(from) == Some(lo) && ParseU32(to) == Some(hi)
    requires min <= lo <= max && min <= hi <= max
    ensures ParseFieldValue(s, field, min, max) == Ok(Range(lo, hi))
  {
  }

  lemma {:induction false} NotInParts(a: string, c: char, b: string, x: char)
    requires x !in a && x != c && x !in b
    ensures x !in a + [c] + b
  {
  }

  lemma {:induction false} PrintedRange(lo: nat, hi: nat, field: string, min: nat, max: nat)
    requires min <= lo <= max && min <= hi <= max && max <= U32_MAX
    ensures ParseFieldValue(ToDecimal(lo) + ['-'] + ToDecimal(hi), field, min, max) == Ok(Range(lo, hi))
  {
    var from, to := ToDecimal(lo), ToDecimal(hi);
    ParsePrinted(lo);
    ParsePrinted(hi);
    NotInParts(from, '-', to, ',');
    NotInParts(from, '-', to, '/');
    SplitOnceAtFirst(from, '-', to);
    ParseRange(from + ['-'] + to, from, to, lo, hi, field, min, max);
  }

  lemma {:induction false} PrintedAtom(v: CronFieldValue, field: string, min: nat, max: nat)
    requires IsAtom(v, min, max) && max <= U32_MAX
    ensures AtomText(ValueText(v))
    ensures ParseFieldValue(ValueText(v), field, min, max) == Ok(v)
  {
    match v
    case Any =>
    case Exact(n) => PrintedNumber(n, field, min, max);
    case Range(lo, hi) => PrintedRange(lo, hi, field, min, max);
  }

  lemma {:induction false} PrintedItem(v: CronFieldValue, field: string, min: nat, max: nat)
    requires IsItem(v, min, max) && max <= U32_MAX
    ensures ItemText(ValueText(v))
    ensures ParseFieldValue(ValueText(v), field, min, max) == Ok(v)
  {
    if v.Step? {
      PrintedAtom(v.base, field, min, max);
      ParsePrinted(v.step);
      SplitOnceAtFirst(ValueText(v.base), '/', ToDecimal(v.step));
    } else {
      PrintedAtom(v, field, min, max);
    }
  }

  lemma {:induction false} ConsItems(pieces: seq<string>, bound: nat, field: string, min: nat, max: nat,
                  first: CronFieldValue, rest: seq<CronFieldValue>)
    requires pieces != [] && forall p :: p in pieces ==> |p| < bound
    requires ParseFieldValue(Trim(pieces[0]), field, min, max) == Ok(first)
    requires ParseItems(pieces[1..], bound, field, min, max) == Ok(rest)
    ensures ParseItems(pieces, bound, field, min, max) == Ok([first] + rest)
  {
  }

  lemma {:induction false} ItemsFromTexts(
      items: seq<CronFieldValue>, texts: seq<string>, bound: nat, field: string, min: nat, max: nat)
    requires |texts| == |items|
    requires forall p :: p in texts ==> |p| < bound
    requires forall i :: 0 <= i < |items| ==> ParseFieldValue(Trim(texts[i]), field, min, max) == Ok(items[i])
    ensures ParseItems(texts, bound, field, min, max) == Ok(items)
  {
    if items != [] {
      ItemsFromTexts(items[1..], texts[1..], bound, field, min, max);
      ConsItems(texts, bound, field, min, max, items[0], items[1..]);
      assert items == [items[0]] + items[1..];
    }
  }

  lemma {:induction false} JoinHasSeparator(pieces: seq<string>, c: char)
    requires 2 <= |pieces|
    ensures c in Join(pieces, c)
  {
  }

  lemma {:induction false} ParseList(
      items: seq<CronFieldValue>, texts: seq<string>, field: string, min: nat, max: nat)
    requires 2 <= |items| == |texts| && forall p :: p in texts ==> ',' !in p
    requires forall i :: 0 <= i < |items| ==> ParseFieldValue(Trim(texts[i]), field, min, max) == Ok(items[i])
    ensures ParseFieldValue(Join(texts, ','), field, min, max) == Ok(List(items))
  {
    var s := Join(texts, ',');
    SplitJoined(texts, ',');
    JoinHasSeparator(texts, ',');
    ItemsFromTexts(items, texts, |s|, field, min, max);
  }

  lemma {:induction false} JoinedItemsSolid(texts: seq<string>)
    requires 2 <= |texts| && forall t :: t in texts ==> ItemText(t)
    ensures Join(texts, ',') != [] && Solid(Join(texts, ','))
  {
    JoinHasSeparator(texts, ',');
    forall c | c in Join(texts, ',')
      ensures IsCronChar(c)
    {
      CharOfJoin(texts, ',', c);
    }
  }

  lemma {:induction false} PrintedFieldValue(v: CronFieldValue, field: string, min: nat, max: nat)
    requires IsFieldValue(v, min, max) && max <= U32_MAX
    ensures ValueText(v) != [] && Solid(ValueText(v))
    ensures ParseFieldValue(ValueText(v), field, min, max) == Ok(v)
  {
    if v.List? {
      var texts := seq(|v.items|, i requires 0 <= i < |v.items| => ValueText(v.items[i]));
      forall i | 0 <= i < |texts|
        ensures ItemText(texts[i]) && ParseFieldValue(Trim(texts[i]), field, min, max) == Ok(v.items[i])
      {
        PrintedItem(v.items[i], field, min, max);
        assert Trim(texts[i]) == texts[i];
      }
      JoinedItemsSolid(texts);
      ParseList(v.items, texts, field, min, max);
    } else {
      PrintedItem(v, field, min, max);
    }
  }

  ghost predicate ParsesFields(fields: seq<string>, e: CronExpr)
    requires |fields| == 5
  {
    && ParseField(fields[0], "minute", 0, 59) == Ok(e.minute)
    && ParseField(fields[1], "hour", 0, 23) == Ok(e.hour)
    && ParseField(fields[2], "day_of_month", 1, 31) == Ok(e.dayOfMonth)
    && ParseField(fields[3], "month", 1, 12) == Ok(e.month)
    && ParseField(fields[4], "day_of_week", 0, 6) == Ok(e.dayOfWeek)
  }

  lemma {:induction false} ParseFiveFields(s: string, fields: seq<string>, e: CronExpr)
    requires SplitWhitespace(s) == fields && |fields| == 5 && ParsesFields(fields, e)
    ensures Parse(s) == Ok(e)
  {
  }

  lemma {:induction false} PrintedField(f: CronField, field: string, min: nat, max: nat)
    requires f.min == min && f.max == max && IsFieldValue(f.value, min, max) && max <= U32_MAX
    ensures ParseField(ValueText(f.value), field, min, max) == Ok(f)
  {
    PrintedFieldValue(f.value, field, min, max);
  }

  lemma {:induction false} PrintedFields(fields: seq<string>, e: CronExpr)
    requires IsExpr(e) && fields == FieldTexts(e)
    ensures ParsesFields(fields, e)
  {
    PrintedField(e.minute, "minute", 0, 59);
    PrintedField(e.hour, "hour", 0, 23);
    PrintedField(e.dayOfMonth, "day_of_month", 1, 31);
    PrintedField(e.month, "month", 1, 12);
    PrintedField(e.dayOfWeek, "day_of_week", 0, 6);
  }

  predicate IsWord(w: string) { w != [] && Solid(w) }

  lemma {:induction false} PrintedWord(v: CronFieldValue, min: nat, max: nat)
    requires IsFieldValue(v, min, max) && max <= U32_MAX
    ensures IsWord(ValueText(v))
  {
    PrintedFieldValue(v, "", min, max);
  }

  lemma {:induction false} PrintedWords(e: CronExpr)
    requires IsExpr(e)
    ensures forall w :: w in FieldTexts(e) ==> IsWord(w)
  {
    PrintedWord(e.minute.value, 0, 59);
    PrintedWord(e.hour.value, 0, 23);
    PrintedWord(e.dayOfMonth.value, 1, 31);
    PrintedWord(e.month.value, 1, 12);
    PrintedWord(e.dayOfWeek.value, 0, 6);
  }

  lemma {:induction false} PrintedExpr(e: CronExpr)
    requires IsExpr(e)
    ensures Parse(ExprText(e)) == Ok(e)
  {
    var fields := FieldTexts(e);
    PrintedFields(fields, e);
    PrintedWords(e);
    WordsOfJoined(fields);
    ParseFiveFields(Join(fields, ' '), fields, e);
  }

  /** Whatever `parse` accepts, printing it and parsing the print gives it back. */
  lemma {:induction false} RoundTrip(s: string)
    requires Parse(s).Ok?
    ensures Parse(ExprText(Parse(s).value)) == Parse(s)
  {
    ParsedExpr(s);
    PrintedExpr(Parse(s).value);
  }

  /** The expressions the parser can produce are exactly the well-formed ones. */
  lemma {:induction false} ParserImage(e: CronExpr)
    ensures IsExpr(e) <==> exists s :: Parse(s) == Ok(e)
  {
    if IsExpr(e) {
      PrintedExpr(e);
    } else if exists s :: Parse(s) == Ok(e) {
      var s :| Parse(s) == Ok(e);
      ParsedExpr(s);
    }
  }

  // ---------- what a field means ----------

  function Progression(lo: nat, hi: nat, step: nat): set<nat>
    requires 1 <= step
    decreases hi + 1 - lo
  {
    if hi < lo then {} else {lo} + Progression(lo + step, hi, step)
  }

  /** The set of values a field stands for, defined without looking at a candidate. */
  function Meaning(v: CronFieldValue, min: nat, max: nat): set<nat> {
    match v
    case Any => Progression(min, max, 1)
    case Exact(n) => {n}
    case Range(lo, hi) => Progression(lo, hi, 1)
    case Step(base, step) =>
      if step == 0 then {}
      else if base.Any? then Progression(min, max, step)
      else if base.Range? then Progression(base.lo, base.hi, step)
      else {}
    case List(items) => set i, x | 0 <= i < |items| && x in Meaning(items[i], min, max) :: x
  }

  lemma {:induction false} SmallRemainder(a: int, step: int)
    requires 0 <= a < step
    ensures a % step == a
  {
  }

  lemma {:induction false} UniqueRemainder(a: int, step: int, q: int, r: int)
    requires 0 <= r < step && a == q * step + r
    ensures a % step == r
  {
    var d := a / step - q;
    assert d * step == r - a % step;
    assert d <= -1 ==> d * step <= -step;
    assert 1 <= d ==> step <= d * step;
  }

  lemma {:induction false} RemainderStep(a: int, step: int)
    requires 1 <= step <= a
    ensures (a - step) % step == a % step
  {
    var q, r := a / step, a % step;
    assert a - step == (q - 1) * step + r;
    UniqueRemainder(a - step, step, q - 1, r);
  }

  lemma {:induction false} ProgressionMembers(lo: nat, hi: nat, step: nat, x: nat)
    requires 1 <= step
    ensures x in Progression(lo, hi, step) <==> lo <= x <= hi && (x - lo) % step == 0
    decreases hi + 1 - lo
  {
    if lo <= hi {
      ProgressionMembers(lo + step, hi, step, x);
      if lo + step <= x {
        RemainderStep(x - lo, step);
      } else if lo < x {
        SmallRemainder(x - lo, step);
      }
    }
  }

  /** On every value of the field's range, `matches` decides membership. */
  lemma {:induction false} MatchesIsMembership(v: CronFieldValue, min: nat, max: nat, val: nat)
    requires min <= val <= max
    ensures v.Matches(val, min, max) <==> val in Meaning(v, min, max)
  {
    match v
    case Any => ProgressionMembers(min, max, 1, val);
    case Range(lo, hi) => ProgressionMembers(lo, hi, 1, val);
    case Step(base, step) =>
      if step != 0 && base.Any? {
        ProgressionMembers(min, max, step, val);
      } else if step != 0 && base.Range? {
        ProgressionMembers(base.lo, base.hi, step, val);
      }
    case List(items) =>
      forall i | 0 <= i < |items|
        ensures items[i].Matches(val, min, max) <==> val in Meaning(items[i], min, max)
      {
        MatchesIsMembership(items[i], min, max, val);
      }
    case _ =>
  }

  /** A parsed field never stands for a value outside its range. */
  lemma {:induction false} MeaningInRange(v: CronFieldValue, min: nat, max: nat, x: nat)
    requires IsFieldValue(v, min, max)
    requires x in Meaning(v, min, max)
    ensures min <= x <= max
  {
    if v.Any? {
      ProgressionMembers(min, max, 1, x);
    } else if v.Range? {
      ProgressionMembers(v.lo, v.hi, 1, x);
    } else if v.Step? {
      if v.base.Any? {
        ProgressionMembers(min, max, v.step, x);
      } else if v.base.Range? {
        ProgressionMembers(v.base.lo, v.base.hi, v.step, x);
      }
    } else if v.List? {
      var i :| 0 <= i < |v.items| && x in Meaning(v.items[i], min, max);
      MeaningInRange(v.items[i], min, max, x);
    }
  }

  /** A reversed range, and a step over a single number, parse and match nothing. */
  lemma {:induction false} FieldsThatNeverMatch(lo: nat, hi: nat, step: nat, field: string, min: nat, max: nat)
    requires min <= hi < lo <= max <= U32_MAX && 1 <= step <= U32_MAX
    ensures ParseFieldValue(ToDecimal(lo) + ['-'] + ToDecimal(hi), field, min, max) == Ok(Range(lo, hi))
    ensures ParseFieldValue(ToDecimal(lo) + ['/'] + ToDecimal(step), field, min, max) == Ok(Step(Exact(lo), step))
    ensures Meaning(Range(lo, hi), min, max) == {} && Meaning(Step(Exact(lo), step), min, max) == {}
  {
    PrintedItem(Range(lo, hi), field, min, max);
    PrintedItem(Step(Exact(lo), step), field, min, max);
  }

  predicate ItemDenotesNothing(v: CronFieldValue) {
    match v
    case Range(lo, hi) => hi < lo
    case Step(base, _) => base.Exact? || (base.Range? && base.hi < base.lo)
    case _ => false
  }

  /** A reversed range, a step over a single number or over a reversed range, or a list of
      nothing else. */
  predicate DenotesNothing(v: CronFieldValue) {
    if v.List? then forall item :: item in v.items ==> ItemDenotesNothing(item) else ItemDenotesNothing(v)
  }

  lemma {:induction false} EmptyItem(v: CronFieldValue, min: nat, max: nat)
    requires IsItem(v, min, max) && min <= max
    ensures Meaning(v, min, max) == {} <==> ItemDenotesNothing(v)
  {
    match v
    case Any => ProgressionMembers(min, max, 1, min);
    case Exact(n) => assert n in Meaning(v, min, max);
    case Range(lo, hi) => ProgressionMembers(lo, hi, 1, lo);
    case Step(base, step) =>
      if base.Any? {
        ProgressionMembers(min, max, step, min);
      } else if base.Range? {
        ProgressionMembers(base.lo, base.hi, step, base.lo);
      }
    case _ =>
  }

  lemma {:induction false} EmptyField(v: CronFieldValue, min: nat, max: nat)
    requires IsFieldValue(v, min, max) && min <= max
    ensures Meaning(v, min, max) == {} <==> DenotesNothing(v)
  {
    if v.List? {
      forall i | 0 <= i < |v.items|
        ensures Meaning(v.items[i], min, max) == {} <==> ItemDenotesNothing(v.items[i])
      {
        assert v.items[i] in v.items;
        EmptyItem(v.items[i], min, max);
      }
      forall i | 0 <= i < |v.items| && Meaning(v.items[i], min, max) != {}
        ensures Meaning(v, min, max) != {}
      {
        var x :| x in Meaning(v.items[i], min, max);
        assert x in Meaning(v, min, max);
      }
    } else {
      EmptyItem(v, min, max);
    }
  }

  /** An accepted field matches no value of its range if and only if it is one of these. */
  lemma {:induction false} MatchesNothingExactly(v: CronFieldValue, min: nat, max: nat)
    requires IsFieldValue(v, min, max) && min <= max
    ensures (forall val: nat :: min <= val <= max ==> !v.Matches(val, min, max)) <==> DenotesNothing(v)
  {
    EmptyField(v, min, max);
    forall val: nat | min <= val <= max
      ensures v.Matches(val, min, max) <==> val in Meaning(v, min, max)
    {
      MatchesIsMembership(v, min, max, val);
    }
    if Meaning(v, min, max) != {} {
      var x :| x in Meaning(v, min, max);
      MeaningInRange(v, min, max, x);
      assert v.Matches(x, min, max);
    }
  }
}
