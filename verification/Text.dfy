/** The string operations of Rust's standard library that the parsers and printers
    use: decimal `u32`s, `split`, `split_once`, `trim`, `split_whitespace`, `join`. */
module Text {
  import opened Wrappers

  // ---------- u32 in decimal ----------

  predicate IsDigit(c: char) { '0' <= c <= '9' }

  predicate AllDigits(s: string) { forall c :: c in s ==> IsDigit(c) }

  function DigitChar(d: nat): (c: char)
    requires d < 10
    ensures IsDigit(c) && c as int - '0' as int == d
  {
    ('0' as int + d) as char
  }

  function DecimalValue(s: string): nat
    requires AllDigits(s)
  {
    if s == [] then 0
    else
      assert s[|s| - 1] in s;
      10 * DecimalValue(s[..|s| - 1]) + (s[|s| - 1] as int - '0' as int)
  }

  /** `str::parse::<u32>`: one leading plus sign is allowed, overflow is an error. */
  function ParseU32(s: string): Option<nat> {
    var digits := if s != [] && s[0] == '+' then s[1..] else s;
    if digits != [] && AllDigits(digits) && DecimalValue(digits) <= U32_MAX
    then Some(DecimalValue(digits)) else None
  }

  /** `u32::to_string`. */
  function ToDecimal(n: nat): (s: string)
    ensures s != [] && AllDigits(s)
  {
    if n < 10 then [DigitChar(n)] else ToDecimal(n / 10) + [DigitChar(n % 10)]
  }

  lemma {:induction false} DecimalRoundTrip(n: nat)
    ensures DecimalValue(ToDecimal(n)) == n
  {
    if 10 <= n {
      DecimalRoundTrip(n / 10);
      assert ToDecimal(n)[..|ToDecimal(n)| - 1] == ToDecimal(n / 10);
    }
  }

  lemma {:induction false} ParsePrinted(n: nat)
    requires n <= U32_MAX
    ensures ParseU32(ToDecimal(n)) == Some(n)
  {
    DecimalRoundTrip(n);
    assert ToDecimal(n)[0] in ToDecimal(n);
  }

  // ---------- splitting and joining ----------

  function IndexOf(s: string, c: char): (i: nat)
    ensures i <= |s| && c !in s[..i]
    ensures i < |s| ==> s[i] == c
    ensures i == |s| <==> c !in s
  {
    if s == [] || s[0] == c then 0 else 1 + IndexOf(s[1..], c)
  }

  function SplitOnce(s: string, c: char): Option<(string, string)> {
    var i := IndexOf(s, c);
    if i < |s| then Some((s[..i], s[i + 1..])) else None
  }

  function Split(s: string, c: char): (pieces: seq<string>)
    ensures pieces != []
    ensures forall p :: p in pieces ==> c !in p && |p| + (if c in s then 1 else 0) <= |s|
    ensures c in s ==> 2 <= |pieces|
    decreases |s|
  {
    var i := IndexOf(s, c);
    if i < |s| then [s[..i]] + Split(s[i + 1..], c) else [s]
  }

  function Join(pieces: seq<string>, c: char): string {
    if pieces == [] then []
    else if |pieces| == 1 then pieces[0]
    else pieces[0] + [c] + Join(pieces[1..], c)
  }

  lemma {:induction false} IndexAfterPrefix(p: string, c: char, rest: string)
    requires c !in p
    ensures IndexOf(p + [c] + rest, c) == |p|
  {
    var s := p + [c] + rest;
    assert s[|p|] == c;
    assert forall k :: 0 <= k < |p| ==> s[k] in p;
    assert forall n :: |p| < n <= |s| ==> s[..n][|p|] == c;
  }

  lemma {:induction false} SplitOnceAtFirst(p: string, c: char, rest: string)
    requires c !in p
    ensures SplitOnce(p + [c] + rest, c) == Some((p, rest))
  {
    IndexAfterPrefix(p, c, rest);
    assert (p + [c] + rest)[..|p|] == p;
    assert (p + [c] + rest)[|p| + 1..] == rest;
  }

  lemma {:induction false} SplitFirst(p: string, c: char, rest: string)
    requires c !in p
    ensures Split(p + [c] + rest, c) == [p] + Split(rest, c)
  {
    IndexAfterPrefix(p, c, rest);
    assert (p + [c] + rest)[..|p|] == p;
    assert (p + [c] + rest)[|p| + 1..] == rest;
  }

  lemma {:induction false} SplitJoined(pieces: seq<string>, c: char)
    requires pieces != [] && forall p :: p in pieces ==> c !in p
    ensures Split(Join(pieces, c), c) == pieces
  {
    assert pieces[0] in pieces;
    if 1 < |pieces| {
      SplitJoined(pieces[1..], c);
      SplitFirst(pieces[0], c, Join(pieces[1..], c));
      assert pieces == [pieces[0]] + pieces[1..];
    }
  }

  lemma {:induction false} CharOfJoin(pieces: seq<string>, c: char, x: char)
    requires x in Join(pieces, c)
    ensures x == c || exists p :: p in pieces && x in p
  {
    if 1 < |pieces| {
      if x !in pieces[0] && x != c {
        CharOfJoin(pieces[1..], c, x);
        var p :| p in pieces[1..] && x in p;
        assert p in pieces;
      }
    } else {
      assert pieces[0] in pieces;
    }
  }

  // ---------- whitespace ----------

  /** `char::is_whitespace`: the Unicode White_Space property. */
  predicate IsWhitespace(c: char) {
    var n := c as int;
    || 0x09 <= n <= 0x0D || n == 0x20 || n == 0x85 || n == 0xA0 || n == 0x1680
    || 0x2000 <= n <= 0x200A || n == 0x2028 || n == 0x2029 || n == 0x202F || n == 0x205F || n == 0x3000
  }

  predicate Solid(s: string) { forall c :: c in s ==> !IsWhitespace(c) }

  function TrimStart(s: string): (r: string)
    ensures |r| <= |s|
    ensures forall c :: c in r ==> c in s
  {
    if s != [] && IsWhitespace(s[0]) then TrimStart(s[1..]) else s
  }

  function TrimEnd(s: string): (r: string)
    ensures |r| <= |s|
    ensures forall c :: c in r ==> c in s
  {
    if s != [] && IsWhitespace(s[|s| - 1]) then TrimEnd(s[..|s| - 1]) else s
  }

  function Trim(s: string): (r: string)
    ensures |r| <= |s|
    ensures forall c :: c in r ==> c in s
    ensures Solid(s) ==> r == s
  {
    TrimEnd(TrimStart(s))
  }

  /** Length of the longest prefix without whitespace. */
  function WordLength(s: string): (n: nat)
    ensures n <= |s| && Solid(s[..n])
    ensures n < |s| ==> IsWhitespace(s[n])
  {
    if s == [] || IsWhitespace(s[0]) then 0 else 1 + WordLength(s[1..])
  }

  function SplitWhitespace(s: string): (words: seq<string>)
    ensures forall w :: w in words ==> w != [] && Solid(w)
    decreases |s|
  {
    if s == [] then []
    else if IsWhitespace(s[0]) then SplitWhitespace(s[1..])
    else [s[..WordLength(s)]] + SplitWhitespace(s[WordLength(s)..])
  }

  lemma {:induction false} WordBeforeBlank(w: string, rest: string)
    requires Solid(w) && (rest == [] || IsWhitespace(rest[0]))
    ensures WordLength(w + rest) == |w|
  {
    var s := w + rest;
    assert forall k :: 0 <= k < |w| ==> s[k] in w;
    assert forall n :: |w| < n <= |s| ==> s[|w|] in s[..n];
  }

  lemma {:induction false} WordsOfJoined(words: seq<string>)
    requires forall w :: w in words ==> w != [] && Solid(w)
    ensures SplitWhitespace(Join(words, ' ')) == words
  {
    if words != [] {
      var w := words[0];
      assert w in words && w[0] in w;
      var tail := if |words| == 1 then [] else [' '] + Join(words[1..], ' ');
      assert Join(words, ' ') == w + tail;
      WordBeforeBlank(w, tail);
      assert (w + tail)[..|w|] == w && (w + tail)[|w|..] == tail;
      assert forall v :: v in words[1..] ==> v in words;
      WordsOfJoined(words[1..]);
      if 1 < |words| {
        assert tail[1..] == Join(words[1..], ' ');
      }
    }
  }
}
