/** The parts of sscanf, strchr and strstr that the proxy uses, on strings without NUL.
    A conversion that matches returns what it stored and the text it left. */
module Scan {
  import opened Options

  predicate IsSpace(c: char) {
    c in {' ', '\t', '\n', 11 as char, 12 as char, '\r'}
  }

  predicate IsDigit(c: char) {
    '0' <= c <= '9'
  }

  /** Length of the longest prefix whose characters all satisfy p. */
  function Span(s: string, p: char -> bool): (k: nat)
    ensures k <= |s|
    ensures forall j :: 0 <= j < k ==> p(s[j])
    ensures k < |s| ==> !p(s[k])
  {
    if s == "" || !p(s[0]) then 0 else 1 + Span(s[1..], p)
  }

  lemma {:induction false} SpanOf(a: string, b: string, p: char -> bool)
    requires forall j :: 0 <= j < |a| ==> p(a[j])
    requires b == "" || !p(b[0])
    ensures Span(a + b, p) == |a|
  {
    if a == "" {
      assert a + b == b;
    } else {
      assert (a + b)[1..] == a[1..] + b;
      SpanOf(a[1..], b, p);
    }
  }

  /** What a conversion stored, and the rest of the input. */
  datatype Match<+T> = Match(value: T, rest: string)

  /** Ordinary characters of a format, none of them white space. */
  function Literal(s: string, format: string): (r: Option<string>)
    ensures r.Some? ==> |r.value| == |s| - |format|
  {
    if format <= s then Some(s[|format|..]) else None
  }

  function SkipSpace(s: string): string {
    s[Span(s, IsSpace)..]
  }

  /** %s */
  function Word(s: string): (r: Option<Match<string>>)
    ensures r.Some? ==> |r.value.value| + |r.value.rest| <= |s|
  {
    var t := SkipSpace(s);
    var k := Span(t, c => !IsSpace(c));
    if k == 0 then None else Some(Match(t[..k], t[k..]))
  }

  /** %[^:/] */
  function NotColonSlash(s: string): (r: Option<Match<string>>)
    ensures r.Some? ==> |r.value.value| + |r.value.rest| == |s|
  {
    var k := Span(s, c => c != ':' && c != '/');
    if k == 0 then None else Some(Match(s[..k], s[k..]))
  }

  function DigitValue(c: char): nat
    requires IsDigit(c)
  {
    c as int - '0' as int
  }

  function Value(digits: string): nat
    requires forall k :: 0 <= k < |digits| ==> IsDigit(digits[k])
  {
    if digits == "" then 0
    else 10 * Value(digits[..|digits| - 1]) + DigitValue(digits[|digits| - 1])
  }

  /** The digits of a number, without sign or white space in front. */
  function Digits(s: string): (r: Option<Match<nat>>)
    ensures r.Some? ==> |r.value.rest| < |s|
  {
    var k := Span(s, IsDigit);
    if k == 0 then None else Some(Match(Value(s[..k]), s[k..]))
  }

  /** %d, on unbounded integers; what an int cannot hold is the caller's to judge. */
  function Decimal(s: string): (r: Option<Match<int>>)
    ensures r.Some? ==> |r.value.rest| < |s|
  {
    var t := SkipSpace(s);
    if t != "" && t[0] in {'+', '-'} then
      match Digits(t[1..])
      case None => None
      case Some(m) => Some(Match(if t[0] == '-' then 0 - m.value else m.value, m.rest))
    else
      match Digits(t)
      case None => None
      case Some(m) => Some(Match(m.value, m.rest))
  }

  /** The decimal numeral of n, as %d would print it. */
  function Numeral(n: nat): (s: string)
    ensures s != "" && forall k :: 0 <= k < |s| ==> IsDigit(s[k])
  {
    var last := [(n % 10 + '0' as int) as char];
    if n < 10 then last else Numeral(n / 10) + last
  }

  lemma {:induction false} NumeralValue(n: nat)
    ensures Value(Numeral(n)) == n
  {
    var s := Numeral(n);
    if n >= 10 {
      NumeralValue(n / 10);
      assert s[..|s| - 1] == Numeral(n / 10);
    } else {
      assert s[..|s| - 1] == "";
    }
  }

  lemma NumeralDigits(n: nat, rest: string)
    requires rest == "" || !IsDigit(rest[0])
    ensures Digits(Numeral(n) + rest) == Some(Match(n, rest))
  {
    var s := Numeral(n);
    SpanOf(s, rest, IsDigit);
    assert (s + rest)[..|s|] == s && (s + rest)[|s|..] == rest;
    NumeralValue(n);
  }

  lemma NumeralScans(n: nat, rest: string)
    requires rest == "" || !IsDigit(rest[0])
    ensures Decimal(Numeral(n) + rest) == Some(Match(n, rest))
  {
    var s := Numeral(n);
    assert IsDigit(s[0]) && (s + rest)[0] == s[0];
    assert Span(s + rest, IsSpace) == 0;
    assert SkipSpace(s + rest) == s + rest;
    NumeralDigits(n, rest);
  }

  /** A sign in front of the digits is read. */
  lemma SignScans(sign: char, n: nat, rest: string)
    requires sign in {'-', '+'} && (rest == "" || !IsDigit(rest[0]))
    ensures var value: int := if sign == '-' then 0 - n else n;
            Decimal([sign] + (Numeral(n) + rest)) == Some(Match(value, rest))
  {
    var t := [sign] + (Numeral(n) + rest);
    assert t[0] == sign && Span(t, IsSpace) == 0 && SkipSpace(t) == t;
    assert t[1..] == Numeral(n) + rest;
    NumeralDigits(n, rest);
  }

  lemma NoNumber(s: string)
    requires s == "" || (!IsDigit(s[0]) && !IsSpace(s[0]) && s[0] !in {'-', '+'})
    ensures Decimal(s) == None
  {
    assert SkipSpace(s) == s;
  }

  /** White space in front of a word or number is skipped. */
  lemma SpaceIsSkipped(c: char, s: string)
    requires c in {' ', '\t', '\n', '\r'}
    ensures Word([c] + s) == Word(s) && Decimal([c] + s) == Decimal(s)
  {
    assert ([c] + s)[1..] == s;
    assert SkipSpace([c] + s) == SkipSpace(s);
  }

  predicate Visible(s: string) {
    s != "" && forall k :: 0 <= k < |s| ==> !IsSpace(s[k])
  }

  lemma WordScans(word: string, rest: string)
    requires Visible(word) && (rest == "" || IsSpace(rest[0]))
    ensures Word(word + rest) == Some(Match(word, rest))
  {
    assert (word + rest)[0] == word[0];
    assert Span(word + rest, IsSpace) == 0;
    assert SkipSpace(word + rest) == word + rest;
    SpanOf(word, rest, c => !IsSpace(c));
    assert (word + rest)[..|word|] == word && (word + rest)[|word|..] == rest;
  }

  /** A word behind one blank. */
  lemma NextWordScans(word: string, rest: string)
    requires Visible(word) && (rest == "" || IsSpace(rest[0]))
    ensures Word(" " + word + rest) == Some(Match(word, rest))
  {
    var s := " " + word + rest;
    assert s == " " + (word + rest) && (word + rest)[0] == word[0];
    SpanOf(" ", word + rest, IsSpace);
    assert SkipSpace(s) == word + rest;
    assert SkipSpace(word + rest) == word + rest by {
      assert Span(word + rest, IsSpace) == 0;
    }
    WordScans(word, rest);
  }

  // ---------------------------------------------------------------- strchr and strstr

  predicate OccursAt(s: string, pattern: string, k: nat) {
    k + |pattern| <= |s| && s[k..k + |pattern|] == pattern
  }

  predicate LeftmostAt(s: string, pattern: string, k: nat) {
    OccursAt(s, pattern, k) && forall j: nat :: j < k ==> !OccursAt(s, pattern, j)
  }

  /** strstr from position k on: the leftmost occurrence. */
  function FindFrom(s: string, pattern: string, k: nat): (r: Option<nat>)
    requires k <= |s|
    ensures r.Some? ==> k <= r.value && OccursAt(s, pattern, r.value)
    ensures forall j :: k <= j < (if r.Some? then r.value else |s| + 1) ==> !OccursAt(s, pattern, j)
    decreases |s| - k
  {
    if OccursAt(s, pattern, k) then Some(k)
    else if k == |s| then None
    else FindFrom(s, pattern, k + 1)
  }

  function Find(s: string, pattern: string): (r: Option<nat>)
    ensures r.Some? ==> OccursAt(s, pattern, r.value)
    ensures forall j: nat :: (r.Some? ==> j < r.value) ==> !OccursAt(s, pattern, j)
  {
    FindFrom(s, pattern, 0)
  }
}
